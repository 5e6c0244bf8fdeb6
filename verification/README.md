# A verified model of the detection and prevention core

The system watches a network, matches payloads against Snort-like rules, reassembles TCP streams, counts what
each source does in sliding windows, raises alerts and blocks sources in the kernel firewall. This project models
the five algorithms at its centre and proves what they are for:

1. **Matching.** An Aho-Corasick automaton, built breadth first over a mutable trie, stands as a prefilter in front
   of a matcher that walks the contents of a rule with a cursor. The automaton is proved to report what trying every
   pattern at every position would give, in linear time; the engine to return the rules that match; and the greedy
   walk is compared with all placements of the contents. (`TrieSpec`, `AhoCorasick`, `RuleMatcher`, `RuleGreedy`,
   `RuleEngine`)
2. **Streams and flows.** Segments with 32-bit sequence numbers arrive out of order into a bounded queue and a buffer
   of limited depth; around that stand the flow table, a connection state machine and running statistics. The buffer
   is proved to be a prefix of what was sent, and exactly when it is complete; the statistics to be those of an
   offline grouping of the whole history; flows not to influence each other. (`StreamSpec`, `Reassembly`,
   `StreamSafety`, `StreamCoverage`, `StreamDelivery`, `StreamOrder`, `FlowKey`, `FlowSpec`, `FlowStats`, `FlowHistory`, `Flow`,
   `FlowStreams`, `FlowDelivery`, `FlowTotals`, `TrackerSpec`, `Tracker`)
3. **Windows.** The rate heuristics keep only what is young; a background cleaner deletes what is old. The detectors
   are specified over everything ever seen, with nothing forgotten, and the state that forgets is proved to raise the
   same alerts. Which packet is reported under which
   rule is spelled out apart from the detectors. (`Windows`, `HeuristicSpec`, `AppState`, `HeuristicRuns`, `Detectors`,
   `DetectorRuns`)
4. **Blocks.** The life of a block over the cache, the kernel's chains, the allowlist and the sweeper, with every
   kernel command free to fail, rules left by an earlier life, and addresses in whatever spelling. (`FirewallSpec`, `Firewall`, `FirewallRuns`)
5. **Parsers.** Rule options, mixed text and hexadecimal contents, and the server name in a TLS ClientHello (section
   4.1.2 of RFC 8446, section 3 of RFC 6066). (`RuleOptions`, `HexContent`, `RuleParser`, `RuleContents`,
   `ClientHello`)

What the code updates in place is a class here, and each of its methods is proved against a function or relation on
values. The classes carry the calls made so far as ghost state, so that what the lemmas say about whole runs holds of
every reachable object. `dafny verify dfyconfig.toml` checks everything.

## Findings

Properties one would expect that are false of the code, each with the input and the exact condition:

- **The greedy walk misses placements.** Contents "a" and then "b" within one byte, in "aab": the walk takes the first
  "a" (`RuleMatcher.GreedyMissesPlacement`). For fixed modifiers the walk finds a placement in every payload whenever
  there is one exactly when each limited relative content starts from a cursor that can only be in one place
  (`RuleGreedy.GreedyCompleteIffPinned`).
- **The prefilter can hide a match.** The Kelvin sign lower-cases to "k" for the matcher and is not folded by the
  prefilter (`RuleEngine.KelvinSignIsHidden`); `RuleEngine.NeverHiddenIff` says exactly when nothing is hidden.
- **Empty patterns are not reported everywhere.** The report is exact on all payloads exactly when no pattern is empty
  (`TrieSpec.ExactOnAllPayloads`); no parsed rule has one (`RuleParser.ParsedIsSearchable`).
- **Sequence numbers that wrap inside a stream lose data delivered out of order.** The queue is sorted and drained by
  raw numbers (`StreamDelivery.WrapLosesSegment`); delivery in any order is safe exactly when the numbers do not wrap
  (`StreamDelivery.RecoversIffNoWrap`).
- **A full flow table makes flows depend on each other**, and nothing else does (`TrackerSpec.IndependentIffNeverFull`).
- **A value that ends in a backslash swallows its closing quote**, and nothing else is misread
  (`RuleOptions.RecoveredIff`); a content text also loses quotes at its ends (`RuleParser.ContentRoundTripIff`).
- **A segment that starts behind and reaches across is dropped whole.** [0,3) and then [0,6) lose the bytes from 3 on;
  `StreamOrder.RecoversIffSeamless` says exactly which sets of slices every order recovers, and
  `FlowDelivery.FlowLoses` gives a connection for every other.
- **Spellings of one address get in each other's way.** The manager keeps addresses as they are spelled, the kernel as
  it parses them. Block "2001:db8::1" and "2001:DB8::1", then unblock the first: the second stays confirmed without a
  rule (`FirewallRuns.SpellingsShareRule`), and another spelling of an allowlisted address is blocked. Exact conditions:
  `FirewallRuns.EnforcedIffApart`, `FirewallRuns.ConfirmedIffApart`, `FirewallRuns.MirroredIffApart`,
  `FirewallRuns.ProtectionHoldsIff`.
- **A failed removal leaks a kernel rule** while the call reports success (`FirewallRuns.FailedRemovalLeaks`,
  `FirewallRuns.UnblockedIff`).
- **A change of deployment mode confirms a block that is not there** (`FirewallRuns.ModeChangeMisconfirms`,
  `FirewallRuns.ConfirmedIff`).
- **A block renewed while the round that found it expired is under way is deleted** with its time not over
  (`HeuristicRuns.RenewedBlockIsDropped`); without anything in between the round ends expired blocks only
  (`HeuristicRuns.RoundIsDrops`).

## Model

| member | source | states |
|---|---|---|
| `AhoCorasick.AhoCorasick.AddPattern` | backend/match/ahocorasick.go:31-47 | A pattern gets the next free id, and the trie becomes exactly the set of prefixes of the patterns, its edges spelling their words, whatever patterns share. |
| `AhoCorasick.AhoCorasick.Build` | backend/match/ahocorasick.go:50-91 | The breadth-first pass ends and leaves every node with its final failure link and output list: no list is merged before it is final. |
| `AhoCorasick.AhoCorasick.BuiltNode` | backend/match/ahocorasick.go:50-91 | After the pass a failure link leads to the node of the longest proper suffix in the trie, strictly shallower, and the outputs are exactly the non-empty patterns that are suffixes of the node's word, without repeats. |
| `AhoCorasick.AhoCorasick.Search` | backend/match/ahocorasick.go:95-125 | One pass over the payload yields the report of the value-level search (see `TrieSpec.SearchIsExact`) and follows as many links as it charges (see `TrieSpec.SearchIsLinear`). |
| `TrieSpec.LongestIsLongest` | backend/match/ahocorasick.go:71-80 | The automaton's state after a text is the longest suffix of it that is a path of the trie. |
| `TrieSpec.OutputsAreComplete` | backend/match/ahocorasick.go:82-85 | Merging output lists along failure links skips no pattern: every non-empty pattern that ends here is in the list. |
| `TrieSpec.SearchFindsNonEmpty` | backend/match/ahocorasick.go:93-125 | For any patterns, duplicates, prefixes and suffixes of each other included: every reported pair is an occurrence, every occurrence of a non-empty pattern is reported, and no pair twice. |
| `TrieSpec.SearchIsExact` | backend/match/ahocorasick.go:93-125 | With non-empty patterns the report is exactly the set of occurrences, each once. |
| `TrieSpec.ExactOnAllPayloads` | backend/match/ahocorasick.go:45-125 | The report is exact on every payload if and only if no pattern is empty. |
| `TrieSpec.SearchIsLinear` | backend/match/ahocorasick.go:103-111 | The failure links followed in one search, plus the final depth, are at most the length of the payload. |
| `RuleMatcher.Match` | backend/rules/matcher.go:9-67 | Answers whether the walk over the contents succeeds and the regular expression, if there is one, holds of the payload. |
| `RuleMatcher.FindIff` | backend/rules/matcher.go:13-57 | One content is found exactly at the leftmost place that its modifiers allow: not before `offset`, or `distance` bytes after the content before, and ending within `depth` bytes, or else `within`, of that start. |
| `RuleMatcher.WalkIsSound` | backend/rules/matcher.go:12-58 | A walk that succeeds yields positions for all contents that satisfy every offset, depth, distance and within window. |
| `RuleMatcher.WalkIffPlaceable` | backend/rules/matcher.go:12-58 | When no content after the first has a limited relative window, the leftmost choice succeeds if and only if some placement exists. |
| `RuleMatcher.GreedyMissesPlacement` | backend/rules/matcher.go:12-58 | With a limited relative content there is a payload with a placement that the walk does not find. |
| `RuleGreedy.GreedyCompleteIffPinned` | backend/rules/matcher.go:12-58 | For any list of modifiers: the walk agrees with placeability for all non-empty patterns and all payloads if and only if every limited relative window starts from a cursor that can only be in one place. |
| `RuleEngine.PrefilterHidesNothing` | backend/rules/engine.go:33-54 | A rule that matches is let through by the prefilter, if its first content is not empty and is ASCII, with the payload, where case is ignored. |
| `RuleEngine.KelvinSignIsHidden` | backend/rules/engine.go:80-90 | A rule that matches and that the prefilter hides, under a lower-casing that takes the Kelvin sign to "k". |
| `RuleEngine.NeverHiddenIff` | backend/rules/engine.go:80-90 | For a rule of one case-insensitive content and a payload: no lower-casing that agrees with ASCII on ASCII text makes the prefilter hide a match, if and only if the prefilter lets the payload through, the matcher does not search it, or pattern and searched window are ASCII. |
| `RuleEngine.Engine.AddRule` | backend/rules/engine.go:29-54 | Keeps the rules, both automata and the tables in step: pattern ids lead to exactly the rules of their kind. |
| `RuleEngine.Engine.Match` | backend/rules/engine.go:63-115 | Returns rules that match and pass the prefilter, each added rule at most once, and all of those whose first content is not empty; where the prefilter is exact, exactly the rules that match. |
| `Reassembly.StreamReassembler.AddSegment` | backend/flow/reassembly.go:39-112 | The method takes the step of the relation `StreamSpec.AddSegment`, so every reachable object is at the end of a run as the lemmas below quantify over, whatever order the library sort gives equal keys. |
| `StreamSafety.PrefixSafety` | backend/flow/reassembly.go:39-112 | For every initial sequence number, wrap or no wrap, and slices of one stream below 2^31 bytes that are lost, repeated, reordered or overlap: at every moment the buffer is the stream from where it started, as far as `NextSeq` has advanced, cut at the depth; `NextSeq` never goes back. |
| `StreamSafety.SynDataIsDropped` | backend/flow/reassembly.go:51-64 | Data on a SYN, one before the first byte, does not change a started stream. |
| `StreamCoverage.RunKeepsCovering` | backend/flow/reassembly.go:39-112 | Without a wrap, in every run that is told its start or picks up in the middle: the queue is sorted and strictly ahead of `NextSeq`, and each accepted segment is consumed or queued; segments from before the start are dropped. |
| `StreamCoverage.EndOfCoverage` | backend/flow/reassembly.go:92-112 | In such a state `NextSeq` is the end of the contiguous coverage of the accepted segments: all before it was accepted, the byte at it was not. |
| `StreamDelivery.RecoversIffCovered` | backend/flow/reassembly.go:39-112 | Without a wrap, whatever the queue turned away and however the stream was cut: the buffer is complete up to the depth if and only if every byte there is room for was in an accepted segment. |
| `StreamDelivery.SeamlessRecovers` | backend/flow/reassembly.go:39-112 | Overlapping slices in any order, with repetitions, and not turned away, recover the stream up to the depth, if wherever slices that end by a byte cover all before it another starts at that byte. |
| `StreamOrder.RecoversIffSeamless` | backend/flow/reassembly.go:61-64 | For any set of at most fifty-one slices: every order of arrival recovers the stream if and only if they are seamless in that sense; a slice that starts behind and reaches across is dropped whole. |
| `StreamOrder.InOrderRecovers` | backend/flow/reassembly.go:50-64 | For every initial sequence number, wrap or no wrap: slices of which none comes before all that precedes it leave exactly the stream as far as they extend each other, cut at the depth. |
| `StreamDelivery.AnyOrderRecovers` | backend/flow/reassembly.go:66-112 | Consecutive segments delivered in any order, with repetitions, and not turned away by the full queue, recover the stream up to the depth. |
| `StreamDelivery.ShortDeliveriesFit` | backend/flow/reassembly.go:68-70 | After an opening, at most fifty-one segments are never turned away. |
| `StreamDelivery.WrapLosesSegment` | backend/flow/reassembly.go:73-111 | For every stream below 2^31 bytes whose numbers wrap before its end there is a delivery in two segments, not turned away, that loses data. |
| `StreamDelivery.RecoversIffNoWrap` | backend/flow/reassembly.go:39-112 | Every delivery that is not turned away recovers the stream if and only if no byte of it is numbered past the wrap. |
| `FlowKey.SameKeyIff` | backend/flow/key.go:29-54 | Two packets have one key if and only if protocol and endpoints agree, in the same or the opposite direction; the two written forms of an IPv4 address count as one. |
| `FlowSpec.SplitIsUnique` | backend/flow/tracker.go:235-258 | There is one way to cut a history into maximal runs without a gap over one second. |
| `FlowSpec.SplitIsSplit` | backend/flow/tracker.go:235-258 | The cut made packet by packet is that one. |
| `FlowStats.FiguresAreOffline` | backend/flow/tracker.go:222-258 | Counts, bytes, capped lists and bulk totals kept packet by packet are those of the offline definitions, on every history. |
| `FlowStats.WithDataIsAll` | backend/flow/tracker.go:235-237 | The data-bearing packets of a history are as many as there are with a payload, and carry all its bytes. |
| `FlowStats.DirectionStats.Record` | backend/flow/tracker.go:259-295 | One packet of a direction keeps its figures those of its history. |
| `FlowStats.DirectionStats.ExtractBulk` | backend/detection/ml.go:195-210 | The bulk features are the totals over all maximal runs of four or more data-bearing packets of the direction, the open run included; a packet of the other direction does not end a run. |
| `FlowHistory.FlowIsOffline` | backend/flow/tracker.go:185-355 | State, totals, inter-arrival times and the active and idle periods of a flow are those of the offline definitions, on every history. |
| `FlowHistory.StateMeaning` | backend/flow/tracker.go:338-355 | Since its last SYN a connection is new until a packet acknowledges, finishes or resets; it is closing once a FIN or RST comes that is not on the packet that established it; else it is established, and never closed. |
| `Flow.Flow.UpdateFlowML` | backend/flow/tracker.go:181-365 | One packet changes the figures, one direction and one reassembler, and leaves the flow equal to its longer history in every field; `FlowHistory.FlowIsOffline`, `FlowStats.FiguresAreOffline` and `FlowDelivery.FlowRecovers` say what that means. |
| `Flow.Flow.ExtractPeriods` | backend/detection/ml.go:225-232 | While the lists are under their caps, the active and idle features are the lengths of the maximal runs and of the gaps between them, the open run closed at the last packet. |
| `FlowTotals.TotalsSplit` | backend/flow/tracker.go:187-189 | Packets and bytes of a flow split exactly into forward and backward. |
| `FlowTotals.ArrivalsSpanFlow` | backend/flow/tracker.go:193-198 | Under the cap the inter-arrival times sum to the time from the first packet to the last: exactly on a clock of whole microseconds, else to less than one microsecond per packet. |
| `FlowTotals.PeriodsSpanFlow` | backend/flow/tracker.go:200-217 | So do the completed active periods, the open one and the idle periods, to less than two microseconds per run. |
| `FlowStreams.StreamsSeparate` | backend/flow/tracker.go:338-364 | After the client's SYN, repeated or not, and the server's SYN-ACK or SYN, whatever follows: the client's reassembler holds a prefix of the client's bytes, the server's a prefix of the server's, for any initial numbers. |
| `FlowDelivery.FlowRecovers` | backend/flow/tracker.go:338-364 | A side of a connection whose data packets, taken from their sequence numbers and payloads, are seamless, do not wrap and are at most fifty-one or not turned away, is recovered up to the depth, in whatever order they arrive among those of the other side. |
| `FlowDelivery.FlowRecoversInOrder` | backend/flow/tracker.go:338-364 | For any initial numbers: data packets that never arrive ahead are recovered exactly as far as they extend each other. |
| `FlowDelivery.FlowLoses` | backend/flow/tracker.go:358-364 | For every set of at most fifty-one slices that is not seamless there is a connection that carries exactly these and of which no flow recovers the bytes. |
| `TrackerSpec.IndependentIffNeverFull` | backend/flow/tracker.go:139-176 | In any interleaving of any number of connections and sweeps, at every moment each flow depends on its own packets and the sweeps alone, if and only if no packet of a new flow has met a full table. |
| `TrackerSpec.FewFlowsNeverFill` | backend/flow/tracker.go:151-154 | That holds when the packets belong to no more flows than the limit. |
| `TrackerSpec.TableIsBounded` | backend/flow/tracker.go:151-154 | The table never holds more flows than the limit. |
| `Tracker.Tracker.GetOrCreate` | backend/flow/tracker.go:139-176 | Finds the flow of the key or opens one for the sender; answers nil exactly when the key is unknown and the table is full, and leaves all other flows alone. |
| `Tracker.Tracker.Process` | backend/detection/engine.go:81-112 | Looking up and updating a flow is one step of the table as a function of the events, and flows never share objects. |
| `Tracker.Tracker.Prune` | backend/flow/tracker.go:379-395 | One round drops exactly the flows that are idle for too long. |
| `Windows.AddTimestamp` | backend/detection/heuristic.go:183-200 | The trimmed list holds exactly the sightings of the last three seconds, out of all there have been, in order. |
| `Windows.SeenIsRecent` | backend/detection/heuristic.go:119-127 | A map trimmed to its window holds exactly the items seen within it, out of all sightings. |
| `Windows.NoteItem` | backend/detection/heuristic.go:118-131 | So does the map after noting one more item and deleting the old ones. |
| `HeuristicRuns.PacketsCounted` | backend/detection/heuristic.go:183-207 | The size of a window of timestamps is the number of packets on record that belong in it and are young enough. |
| `HeuristicRuns.ItemsCounted` | backend/detection/heuristic.go:218-231 | The keys of a window of items are the different ports, hosts or addresses of those packets. |
| `AppState.AppState.AnalyzePacket` | backend/detection/heuristic.go:68-489 | With a clock that does not run backwards, the state that forgets raises the alerts and makes the blocks of the specification that never forgets, on every packet. |
| `DetectorRuns.PacketReports` | backend/detection/heuristic.go:118-489 | In every history, for each of the eighteen rules: a packet is reported if and only if the numbers of packets or of different ports, hosts or devices in the last 1, 3, 10 or 60 seconds exceed what the rule allows, it is not skipped, and the rule was not reported of its source within 30 seconds; with which severity, confidence and rate, and what becomes of it. No rule reports it twice. |
| `DetectorRuns.PacketBlocks` | backend/detection/heuristic.go:134-163 | In every history: a packet gets its source and device blocked if and only if the firewall confirmed that for one of its alerts, from now on for the time to live; and a blocked device that moved gets its new address blocked for as long as itself. Nothing else changes. |
| `AppState.AppState.BlockManually` | backend/api/api.go:334-366 | A block by an operator, or by another detector, is recorded for the address and its device with its end, and enters the same history. |
| `AppState.AppState.Unblock` | backend/api/api.go:367-399 | Taking one back frees the address and the device it was recorded with. |
| `AppState.AppState.AutoUnblock` | backend/main.go:135-178 | The round leaves exactly the blocks whose end has not come. |
| `AppState.AppState.DropBlock` | backend/main.go:160-174 | A deletion that comes after other events frees an address and a device found earlier. |
| `HeuristicRuns.RoundIsDrops` | backend/main.go:150-174 | A round without anything in between is the deletion, one by one and in any order, of the blocks it found. |
| `HeuristicRuns.RenewedBlockIsDropped` | backend/main.go:157-168 | A block renewed after a round has found it expired is deleted with time left. |
| `AppState.AppState.Cleanup` | backend/state/state.go:163-254 | A round of the cleaner deletes exactly the lists, sightings and throttle entries over 300 seconds old, leaves the history as it is, and every window good for all packets to come. |
| `HeuristicRuns.CleanupIsUnobservable` | backend/state/state.go:163-254 | Two states that went through the same packets, blocks and releases hold the same alerts and the same blocks, whatever rounds of the cleaner came in between. |
| `HeuristicRuns.ShownAlerts` | backend/state/state.go:141-146 | The list on show holds the last thousand of all alerts there have been. |
| `HeuristicRuns.AlertsAreSpaced` | backend/detection/heuristic.go:493-499 | In every run with a steady clock, two alerts of one rule and source are at least 30 seconds apart. |
| `HeuristicRuns.DetectionModeNeverBlocks` | backend/detection/heuristic.go:522-527 | In detection mode no run of packets, releases and expiry rounds blocks anything. |
| `HeuristicRuns.BlocksAreBacked` | backend/detection/heuristic.go:140-163 | In every run with blocks, releases and expiry: a blocked device had a confirmed alert or was blocked from elsewhere, and so was a blocked address, unless such a device moved to it. |
| `HeuristicRuns.BlockedStaysSilent` | backend/detection/heuristic.go:134-168 | In prevention mode, until its block is released, found expired or deleted, a blocked source raises no alert but for MAC flooding, whatever else happens. |
| `HeuristicRuns.BlockLastsItsTime` | backend/detection/heuristic.go:542-560 | With one time to live, and unless the block itself is taken back or deleted, no renewal, roaming, other release or expiry ends that silence before the block's own end. |
| `HeuristicRuns.NoBlockOutlivesItsTime` | backend/detection/heuristic.go:542-560 | In every such run no block ends later than one time to live from now, those carried over to a new address included. |
| `Firewall.FirewallManager.BlockDeviceWithResult` | backend/firewall/firewall.go:187-275 | One request takes the state machine's step and gives its answer, whatever the kernel does; `FirewallRuns.RefusedIff` and `FirewallRuns.CachedIff` say which. |
| `Firewall.FirewallManager.UnblockDevice` | backend/firewall/firewall.go:284-302 | So does taking a block back; the answer says no more than that there was an address. |
| `Firewall.FirewallManager.SweepExpired` | backend/firewall/firewall.go:310-337 | A round takes back all expired blocks, in whatever order the map yields them, and no other. |
| `FirewallRuns.AtMostOneRule` | backend/firewall/firewall_linux.go:72-135 | In every run there is at most one rule per address and chain, whatever the spellings, the modes, the failures and what an earlier life left, if it was so at the start. |
| `FirewallRuns.CachedIsEnforced` | backend/firewall/firewall.go:230-275 | Under a fixed deployment mode, and if no spelling in use that can be blocked shares its address with another, every cached address has its rule in the kernel, whatever fails and whatever was left from before. |
| `FirewallRuns.EnforcedIffApart` | backend/firewall/firewall.go:230-302 | For any set of spellings: every run over them under a fixed mode keeps all cached addresses enforced, if and only if no spelling that can be blocked shares its address with another. |
| `FirewallRuns.ConfirmedIffApart` | backend/firewall/firewall.go:230-275 | A confirmation means that the rule is in the kernel, in all runs under a fixed mode, under the same condition exactly. |
| `FirewallRuns.SpellingsShareRule` | backend/firewall/firewall.go:231-238 | Two spellings of one address are both confirmed with one rule; unblocking one leaves the other cached, and confirmed from then on, without a rule. |
| `FirewallRuns.KernelMirrorsCache` | backend/firewall/firewall.go:187-337 | In every run in which removals work, whatever the changes of mode: the kernel holds exactly the cached addresses, each under the mode it was blocked in, and those leftovers of an earlier life that nothing has removed since. |
| `FirewallRuns.MirroredIffApart` | backend/firewall/firewall.go:187-337 | That holds of all such runs over a set of spellings if and only if none that can be blocked shares its address. |
| `FirewallRuns.FailedRemovalLeaks` | backend/firewall/firewall_linux.go:126-135 | A removal that fails leaves the rule and forgets the address. |
| `FirewallRuns.ModeChangeMisconfirms` | backend/firewall/firewall.go:231-238 | After a change of mode a cached address is confirmed without a rule in the chain in force. |
| `FirewallRuns.ConfirmedIff` | backend/firewall/firewall.go:230-275 | After any run with working removals and changes of mode, a confirmation is true if and only if the address was not cached, was blocked under the mode in force, or has an unremoved rule from an earlier life there. |
| `FirewallRuns.SweepLeavesNoneExpired` | backend/firewall/firewall.go:318-335 | After a sweep the cache holds exactly the blocks whose time had not passed. |
| `FirewallRuns.CachedIff` | backend/firewall/firewall.go:187-337 | In every run an address is cached if and only if a request for it was confirmed and, since the last that was, nobody unblocked it and no sweep came more than that request's seconds, or 600 without any, after it. |
| `FirewallRuns.BlockLasts` | backend/firewall/firewall.go:187-337 | Under one mode, and with spellings that stand for their own addresses, it has its rule in the kernel for as long. |
| `FirewallRuns.UnblockUndoesBlock` | backend/firewall/firewall.go:284-302 | Unblocking takes back a block of a new address completely. |
| `FirewallRuns.UnblockedIff` | backend/firewall/firewall_linux.go:126-135 | After any run, whatever was left from before, an unblocked address is free if and only if each chain that had its rule let go of it. |
| `FirewallRuns.ProtectedIsNeverBlocked` | backend/firewall/firewall.go:132-184 | An address without a rule from an earlier life, of which every request in whatever spelling meets a protection, is never in the kernel nor the cache, in any run. |
| `FirewallRuns.GuardedIsNeverBlocked` | backend/firewall/firewall.go:132-184 | The configured gateway and DHCP server, the host's own addresses, loopback, multicast and broadcast in their usual spellings are never in the kernel nor the cache, in any run that names them so. |
| `FirewallRuns.RefusedIff` | backend/firewall/firewall.go:132-256 | Outside detection mode a new request is refused if and only if it is one of these or allowlisted; any other is confirmed and enforced, if the kernel takes the rule. |
| `FirewallRuns.ProtectionHoldsIff` | backend/firewall/firewall.go:132-184 | Protecting one spelling keeps the address out of the kernel, in all runs over a set of spellings, if and only if no other spelling of it among them can be blocked. |
| `RuleOptions.ParseOptions` | backend/rules/parser.go:132-174 | The two loops compute the options that the lemmas below speak of. |
| `RuleOptions.ParseRecoversPrinted` | backend/rules/parser.go:132-174 | Every list of flags, plain values and quoted values is recovered from its printed form, whatever quotes, semicolons and colons the quoted values hold, if none ends in a backslash. |
| `RuleOptions.RecoveredIff` | backend/rules/parser.go:138-155 | A quoted value is recovered if and only if it does not end in a backslash. |
| `RuleOptions.LastNeedsNoSemicolon` | backend/rules/parser.go:156-158 | An option at the end is read without its semicolon. |
| `RuleOptions.BlanksAndCase` | backend/rules/parser.go:165-171 | Blanks around the colon and the case of the key do not matter. |
| `HexContent.ParseHexContent` | backend/rules/parser.go:177-203 | The loop computes the meaning of a content, errors included. |
| `HexContent.ParseInvertsPrint` | backend/rules/parser.go:177-203 | Any mix of literal text and hexadecimal passages reads back as the bytes it was printed from. |
| `HexContent.MeaningDistributes` | backend/rules/parser.go:177-203 | After an even number of pipes the meaning of a concatenation is that of its halves, errors included. |
| `HexContent.PassageReadsIff` | backend/rules/parser.go:183-192 | A hexadecimal passage is accepted if and only if, but for spaces, it is an even number of digits of either case. |
| `HexContent.CaseOfDigits` | backend/rules/parser.go:185-186 | Digits of either case stand for the same bytes. |
| `HexContent.UnfinishedIsDropped` | backend/rules/parser.go:194-202 | A passage that is not closed is dropped. |
| `RuleParser.ReadContents` | backend/rules/parser.go:66-103 | The loop folds the options into contents; `RuleContents.ContentsRoundTrip` and `RuleContents.PassedOver` say what that yields. |
| `RuleParser.ParsedContentsAreWellMade` | backend/rules/parser.go:66-87 | Whatever the options: no pattern is empty, and patterns that ignore case are folded. |
| `RuleParser.ParsedIsSearchable` | backend/rules/engine.go:33-53 | So every parsed rule meets the engine's condition, and its registered pattern is its first content's. |
| `RuleParser.ContentRoundTripIff` | backend/rules/parser.go:66-78 | A content printed from pieces, quoted and escaped, is matched as the bytes they stand for if and only if its text neither starts nor ends in a quote nor ends in a backslash. |
| `RuleContents.ContentsRoundTrip` | backend/rules/parser.go:45-103 | Every list of contents with their modifiers, each written after its content in whatever order, is read back from the text of the options, patterns, case, offset, depth, distance and within alike. |
| `RuleContents.PassedOver` | backend/rules/parser.go:49-103 | Options with other keys, contents that are empty or cannot be read, and modifiers before the first content change nothing. |
| `ClientHello.InspectClientHello` | backend/inspect/tls.go:7-93 | On every payload the loops end, all reads are in bounds, and the answer is the slice that the value-level parser finds. |
| `ClientHello.NameIsDeclared` | backend/inspect/tls.go:65-91 | On any bytes: a name that is returned is a whole host name entry inside a server name extension that the message declares. |
| `ClientHello.ServerNameRoundTrip` | backend/inspect/tls.go:7-93 | From every serialised ClientHello the first host name of its first server name extension is read, whatever entries and extensions stand before and after. |
| `ClientHello.ServerNameIsRead` | backend/inspect/tls.go:60-91 | The same of every packet that reaches the end of that extension, cut off behind it or with anything following. |
| `ClientHello.NoServerName` | backend/inspect/tls.go:65-92 | From one without such an extension none is read. |

## Left out

- StreamSafety.PrefixSafety: streams of 2^31 bytes and more, where a signed 32-bit difference no longer tells old from new.
- RuleGreedy.GreedyCompleteIffPinned: empty patterns, which the rule parser never makes.
- FlowTotals.PeriodsSpanFlow: flows whose lists have reached their cap of 1000, where the code stops recording.
- Flow.Flow.UpdateFlowML: flag counters, header lengths, initial windows and `ActDataPktFwd`, which are counters of their own; counters are unbounded here, 64-bit in the code.
- Tracker.Tracker.Process: a packet carries one time, where the code reads the clock once for the look-up and once for the update; the look-up's is overwritten.
- RuleEngine.Engine.Match: the order of the result; the members are stated, each once.
- AppState.AppState.AnalyzePacket: the lock is dropped during a block request, so another packet may come between; here a packet is one step. The five maps of items and the seven of timestamps are two maps with a key that names the window; the textual keys built from two parts are pairs.
- AppState.AppState.AutoUnblock: the lock is dropped between finding expired blocks and deleting them; this method is the round in one piece, and `DropBlock` the deletion when other events come between. A manual block and its firewall call are one step.
- AppState.AppState.Cleanup: the device inventory, which no detector reads. The correlation of the ML service's answers with past alerts (backend/detection/engine.go:273) reads the throttle table without looking at times, and can tell whether the cleaner has run; it is not modelled.
- HeuristicRuns.AlertsAreSpaced: the alerts of the rule engine, Suricata and the ML service, which pass the same throttle under rule names of their own; their blocks enter a history as blocks from elsewhere. The counters of requested, confirmed and failed blocks.
- Firewall.FirewallManager.BlockDeviceWithResult: the ring of the last hundred results, the audit trail, dry-run mode, rules for MAC addresses and the Windows backend. The kernel's answer to a check (`-C`) is taken as true, its reading of a spelling is a parameter, and nobody else changes the chains while the program runs.
- RuleMatcher.Match: `bytes.ToLower` is a parameter, of which only its value on ASCII text is assumed; a regular expression is any predicate. Offsets and cursors are unbounded, where the code's are 64-bit: a modifier near 2^63 overflows there.
- RuleMatcher.WalkIsSound: case-insensitive contents on text beyond ASCII, where a position in the lower-cased copy need not be one in the payload.
- RuleEngine.NeverHiddenIff: rules of several contents, and which lower-casing the library's own is.
- StreamOrder.RecoversIffSeamless: sets of more than fifty-one slices, of which the full queue may turn some away; `StreamDelivery.SeamlessRecovers` and `StreamDelivery.RecoversIffCovered` have no such bound.
- RuleParser.ReadContents: the header of a rule and the options that do not touch contents; `strconv.Atoi` is a parameter.
- RuleOptions.ParseOptions: white space and case beyond ASCII; the lemmas about printed options ask for ASCII keys, and for plain values that start and end in ASCII.
- Durations are whole microseconds truncated from a clock in nanoseconds, as `Microseconds()` gives them; the code stores them as floating-point numbers, without loss. Times of the heuristics are real numbers.
- The 256 children of a node are a map from bytes to nodes.
- `sort.Slice` may order equal keys in any way; the relation allows all of them, the method that stands for it picks one.
- Parsing of addresses: whether they are internal, loopback or in dotted form are fields of a packet here.
- Features that need square roots or floating-point division, the HTTP call to the ML service, and its model.
- Inspection of HTTP, DNS and SSH payloads, Suricata's supervision, the remaining rule loader.
- Packet capture, the REST interface, WebSockets, storage, high availability, the frontend and the scripts.
- Where comments and code differ the code is followed: the comment on bulks (backend/flow/tracker.go:87-88) speaks of consecutive packets of one direction, but a packet of the other does not end a run; the pruner tests for a closed state that no packet leads to.
