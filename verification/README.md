# whyopen, verified

whyopen takes a snapshot of a host's nftables ruleset, its interfaces, routes and listening
sockets, pushes one synthetic packet per endpoint through the rules, and answers `reachable`,
`filtered` or `unknown`. This project models the evaluator and proves what its answers are worth.

Each file is one module and follows one part of the program; the modules are layered in the order
below.

- `Bytes`, `Bits`, `Words`, `Sorting`, `Facts` — byte strings and their numeric order, their bits,
  bit words in lexicographic order, sorting, and the snapshot vocabulary: expressions, rules, sets,
  chains, tables, packets.
- `Sets`, `Intervals`, `Matcher` — set lookup by sort and sweep, and the rule matcher.
- `Traversal`, `Walkers` — the hook walker as a function, and as the class that appends hits and
  overwrites the rewrite while it walks.
- `Machine` — an independent reading of the same hook: a small-step machine with an explicit stack
  and no nesting limit.
- `Completion` — every concrete meaning the unresolvable parts of a ruleset could have, chosen anew
  at every step of a run.
- `Slicing`, `Depth`, `Path`, `Order` — what a walk keeps when rules are deleted, the bound is
  raised, the hit list is read back, or the document is shuffled.
- `Spellings`, `Prefixes`, `Masks`, `Rendering` — different compilations of one range or one prefix,
  what a comparison under a prefix mask or any other mask tests, and the one-line rendering of a
  rule.
- `Forwards`, `Scanners`, `ForwardSoundness`, `ScanShapes`, `OneRule`, `ScanLimits` — the static scan
  for port forwards, why no forward escapes it, which rulesets have the shapes it takes for granted,
  and rulesets without them that it is silent about.
- `Documents`, `Guarded` — the guard in front of the evaluator, and its three readers (matcher,
  forward scan, renderer) on expressions whose object may be missing.
- `Routes`, `Evaluation`, `EndToEnd`, `Endpoints`, `Report` — route choice, the two hooks around a
  rewrite, what a row claims about the real packet, the order of the rows, and the report as a
  whole.
- `Redecoding`, `Ports` — rebuilding xt expressions from their payloads, and the port-list grammar.

Loops and in-place updates of the source are methods, and each is proved equal to a specification
function; the theorems are about those functions. The machine, the meanings of unresolved
expressions and the encoding of intervals are stated without reference to the walker or the sweep,
and the theorems tie the two sides together.

## Standing assumptions

They appear as preconditions, and only where a theorem needs them.

- Tables that serve one family have distinct names, because `findChain` and `tableSets` look a
  table up by name only (`internal/model/traverse.go:191-218`).
- Jumps and gotos written in the ruleset lead to regular chains (`JumpsAreRegular`). A base chain
  reached by a jump would apply its own policy (`internal/model/traverse.go:344-346`).
- Order-freedom also needs distinct chain names within a table;
  `Order.DuplicateChainNamesMatter` gives the ruleset that shows it.
- The forward scan takes shapes for granted, and only of rules on the packet's path that rewrite it
  or send it to another chain (`PlainPath`): no verdict comes before a rewrite or a transfer, and no
  rewrite before a transfer (`internal/model/forwards.go:225-227`); and an equality with what the
  scan takes for the protocol compares at least one byte, loaded at the offset of the packet's
  family, 9 in IPv4 (section 3.1 of RFC 791) and 6 in IPv6 (section 3 of RFC 8200). `ScanLimits`
  gives a ruleset for each that shows why; `ScanShapes` says when a ruleset has them for every
  packet of a family.
- Verdict kinds are the eight the snapshot format lists (`internal/facts/facts.go:419`); any other
  text is an unhandled verdict here. The code also passes over a kind spelled `none` and accepts a
  kind spelled `dnat` without a rewrite (`internal/model/traverse.go:297-343`), which no collected
  rule carries.
- A goto is read as the code reads it: one that falls through lands on the policy of the base chain
  and no caller resumes (`internal/model/traverse.go:241-251`).
- Index, conntrack and fib registers hold 4 bytes in one fixed host order, little-endian.
- Library code appears as function parameters: the address parser, hex coding, and the xt
  unmarshaler are arbitrary functions.

## Model

| member | source | states |
|---|---|---|
| Machine.TraverseRefinesMachine | internal/model/traverse.go:120-348 | The recursive walk refines an explicit-stack machine with no depth limit: on every ruleset whose jumps are regular the machine halts with the same verdict, the same rewrite and the same hits in order, and when the walk gives its nesting answer the machine really does follow more than `bound` nested jumps and gotos |
| Machine.BasesRefine | internal/model/traverse.go:154-180 | The same for any queue of base chains, any rewrite already in force and any hits already recorded: an accept hands the packet to the next base chain, anything else stops |
| Machine.WrittenJumpsAreRegular | internal/model/traverse.go:308-336 | The jump assumption can be read off the ruleset: if the jumps written in it lead to regular chains, no packet ever jumps to a base chain |
| Machine.SimulateRules | internal/model/traverse.go:263-348 | The same for any tail of any chain, entered with any saved frames: falling off resumes the last saved frame, a goto that falls through discards them all |
| Machine.HaltsOneWay | internal/model/traverse.go:263-348 | The machine has one outcome, so the refinement determines it |
| Completion.DecidedInEveryCompletion | internal/model/match.go:16-269 | Unknown is sound: whenever `Traverse` says accept or drop, then whatever everything unresolved means, chosen anew at every step of the run (a load yields any bytes or breaks the rule, a match fires or not, an undecoded expression continues, breaks or ends the rule, with any jump), the machine halts with that verdict, that rewrite and the same steering rules |
| Completion.RuleCompletes | internal/model/match.go:20-269 | A rule that matches or fails does so with the same action in every completion, and a skipped rule never acquires an action |
| Completion.SkippableStaysNeutral | internal/model/match.go:246-269 | The skip test is safe: even when decoding one match exposes a later unresolved match or load in the same rule, no completion makes the rule decide anything |
| Completion.HaltsOnce | internal/model/traverse.go:263-348 | Under one schedule of meanings the machine has one outcome |
| EndToEnd.RowIsSound | internal/model/evaluate.go:207-349 | "filtered" implies that at every public address the bind covers, under every schedule of meanings of both hooks, the packet is dropped, or not rewritten for a forwarded port, or not routed on because forwarding is off; "reachable" implies one covered address where both hooks accept under every schedule |
| Report.ReportIsSound | internal/model/evaluate.go:53-93 | The same for every row of the report as it is printed, merged, expanded and sorted |
| EndToEnd.AddressIsSound | internal/model/evaluate.go:254-349 | The same for one address: prerouting, then input or forward with the rewritten packet |
| EndToEnd.StoppedOrThrough | internal/model/evaluate.go:254-349 | Under one pair of schedules a packet is never both stopped and let through, so the two claims exclude each other |
| EndToEnd.BestIsStrongest | internal/model/evaluate.go:220-252 | The answer kept over addresses is one that was computed, and none computed is stronger |
| ForwardSoundness.NoSilentForward | internal/model/forwards.go:32-258 | When the prerouting walk accepts a tcp or udp packet with a rewrite, the scan has produced a row with that protocol and destination port, or a note for the very rule whose rewrite it is; the row is of the packet's own family, in an inet table when the new address fits it and the rule names it once |
| ScanShapes.ShapesSuffice | internal/model/forwards.go:147-258 | The shapes can be read off the ruleset: it is enough that rules which rewrite or transfer have them, in chains prerouting can reach, rules that ask for the other family exempt |
| ScanShapes.ElsewhereStops | internal/model/match.go:67-80 | A rule that asks for the other family never matches, so what it loads afterwards does not matter |
| ForwardSoundness.ExpressionKeeps | internal/model/forwards.go:150-230 | The scan's invariant: if a packet satisfies the constraint record and the registers hold the fields the scan thinks they do, one expression the packet passes keeps both true |
| ForwardSoundness.ComparisonConstrains | internal/model/forwards.go:237-258 | A comparison the packet passes leaves a constraint the packet satisfies, or a refusal |
| ForwardSoundness.SetPortsConstrain | internal/model/forwards.go:279-299 | A packet that passes a set lookup on its port has a port in the flat list the scan reads off the set |
| ForwardSoundness.RewriteIsEmitted | internal/model/forwards.go:150-230 | A rule that matches and rewrites reaches the scan's `emit`, with a constraint record the packet satisfies |
| ForwardSoundness.TransferIsFollowed | internal/model/forwards.go:217-228 | A rule that matches and jumps is followed by the scan into the same chain, with a constraint record the packet still satisfies |
| ForwardSoundness.TargetIsRead | internal/model/forwards.go:327-350 | Where a rule rewrites once and no load overwrites its immediates, the address the scan reads, if it reads one, is the address the packet gets |
| ForwardSoundness.EmitReports | internal/model/forwards.go:354-417 | Whatever the record says, a packet satisfying it gets a row with its protocol and port, of its own family unless an inet table's target is of the other, or the rule gets a note |
| ScanLimits.TwoVerdictsHideAForward | internal/model/forwards.go:217-228 | A verdict before a jump: a concrete ruleset really forwards every IPv4 packet, and the scan reports neither row nor note |
| ScanLimits.VerdictHidesForward | internal/model/forwards.go:217-228 | A verdict before a rewrite: the same |
| ScanLimits.RewriteBeforeJumpMisleads | internal/model/forwards.go:202-212 | A rewrite before a jump: no row, and no note names the rule that rewrote the packet |
| ScanLimits.EmptyComparisonHidesForward | internal/model/forwards.go:251-256 | An equality with no bytes of the protocol: every IPv4 packet is forwarded, and the scan reports neither row nor note |
| ScanLimits.ForeignOffsetHidesForward | internal/model/forwards.go:263-271 | A protocol load at the other family's offset: every IPv6 packet from 2001::/16 is forwarded, and the scan reports neither row nor note |
| Report.ForwardedServiceIsShown | internal/model/evaluate.go:100-198 | A forwarded packet whose rule no note names (in an inet table, to an address of its family that the rule names once) has a row of its own family, bound where the packet goes, if and only if no socket and no published port has its protocol and port, or one that has them is evaluated for its family and covers its destination |
| Report.LoopbackHidesForward | internal/model/evaluate.go:119-141 | The condition is needed: a ruleset that forwards every IPv4 packet to tcp port 80, beside one web server on 127.0.0.1, yields no note and no row that speaks for the packet |
| Report.LoopbackTakesService | internal/model/evaluate.go:119-241 | Beside that server, whatever the ruleset forwards, every row of tcp port 80 is the loopback socket's and says filtered |
| Intervals.IntervalDecision | internal/model/match.go:637-700 | For equal-length distinct bounds in any order, membership is "the greatest bound at or below the value is a start", and the sweep refuses exactly when two starts are neighbours |
| Intervals.KernelEncodingMeansUnion | internal/model/match.go:622-700 | For any list of disjoint intervals in the kernel's encoding (zero sentinel, exclusive ends, open top), elements in any order, the lookup is membership of the numeric value in the union |
| Intervals.TouchingNeverWrong | internal/model/match.go:622-700 | When intervals may touch, in whatever order the sort leaves equal bounds, the sweep is right or refuses |
| Intervals.SweepDecides | internal/model/match.go:670-700 | The sweep from any intermediate state, on sorted bounds with possible duplicates |
| Spellings.RangeSpellingsAgree | internal/model/match.go:103-194 | The gte/lte pair, the eq range and the lookup in the kernel encoding of [lo, hi] give one outcome for every register value; the neq range and the inverted lookup give the complement |
| Spellings.ComparisonIsNumeric | internal/model/match.go:103-149 | Each of the six operators is its numeric comparison on big-endian values of any width; any other operator is unresolved |
| Spellings.PrefixSpellingsAgree | internal/model/match.go:48-71 | A partial load compared with n bytes, a full load masked with zero xor, and the same with no xor give one outcome: the address begins with the prefix |
| Spellings.StepsInRule | internal/model/match.go:20-231 | Two expression runs with one outcome can be exchanged inside any rule, whatever follows them |
| Prefixes.PrefixLen | internal/report/render.go:312-328 | Answers (n, true) exactly for the mask of n ones then zeros, and refuses every mask that is none |
| Rendering.PrintedPrefixIsTested | internal/report/render.go:56-59 | In any rule, a load, a prefix mask and a comparison print as value/n whatever the operator and the xor; and that is what the rule tests, on every field it can load, if and only if a condition on operator, xor and value holds (`Prefixes.Faithful`) |
| Prefixes.PrefixIsTested | internal/report/render.go:296-306 | The condition, for all operators and any xor: an equality needs a xor that leaves the prefix alone and agrees with the value after it, a negation fits only a prefix of at most one bit, an ordered comparison only the ends of the range or one step from them |
| Prefixes.WithoutXor | internal/report/render.go:296-306 | With no xor: an equality is printed truly exactly when the value has no bit after the prefix, a negation only when the prefix is empty and the value is not zero |
| Rendering.NegationIsNotPrinted | internal/report/render.go:56-59 | The code does not meet its claim: `ip saddr != 172.16.0.0/12` prints exactly like the rule without the negation, for every packet the complement of what is tested |
| Rendering.PlainPrints | internal/report/render.go:61-62 | An unmasked comparison prints a sign for negation and none for order, and the line is true on every field if and only if the operator is eq or neq, or the order leaves no choice (at most zero, at least all ones) |
| Rendering.PrintedMaskIsTested | internal/report/render.go:56-59 | In any rule, with any field pending, a mask that is no prefix and a comparison print as one equality whatever the operator and the xor; and that is what the rule tests if and only if `Masks.FaithfulMask` holds |
| Rendering.CtStatePrintsBackwards | internal/report/render.go:292-306 | The code claims more than the rule has: `ct state established,related` prints as the equality it is the complement of, for every state; a new connection satisfies the line and is stopped by the rule |
| Masks.MaskIsTested | internal/report/render.go:296-306 | Under any mask, a masked comparison tests "field & mask == value" on every field it can load if and only if a condition on operator, mask, xor and value holds (`Masks.FaithfulMask`), for all operators and any xor |
| Masks.EqualityUnderMask | internal/report/render.go:296-306 | For an equality the condition is: the xor is zero, or the value has a bit off the mask and differs from the xor there |
| Masks.NegationUnderMask | internal/report/render.go:296-306 | For a negation under a mask with some bit it is: one mask bit, a xor that is the mask, and no bit of the value off it |
| Words.FitsIsExact | internal/model/match.go:103-149 | Which comparisons with one bit word, after a xor, accept exactly one word, for equality, negation and both orders |
| Rendering.RenderRule | internal/report/render.go:16-85 | The loop over pending field, pending mask and immediates builds the rendered parts in order |
| Slicing.SlicePreservesTraverse | internal/model/traverse.go:120-348 | Deleting from every chain all rules that do not match or are skipped for a packet leaves kind, reason and rewrite of every hook unchanged, and the hit list loses exactly the skipped hits |
| Depth.RaisingTheBound | internal/model/traverse.go:11-14 | Raising the depth bound changes no result and no hit unless the result was the nesting answer |
| Depth.PathLength | internal/model/traverse.go:263-348 | With at most R rules in a chain, one base chain records at most R + R^2 + ... + R^(bound+1) hits, cyclic jump graphs included |
| Path.PathTellsVerdict | internal/model/traverse.go:120-300 | On accept the rewrite is that of the last hit whose action is dnat, over all base chains of the hook, and absent exactly when no hit is; a rule that drops the packet or cannot be resolved is the last hit |
| Order.DocumentOrderIsFree | internal/model/traverse.go:120-218 | For any permutation of tables, and of chains within tables, result and hit list are the same whenever the refusals do not differ in wording |
| Order.AcceptsExactlyWhen | internal/model/traverse.go:120-181 | A hook accepts exactly when no ingress chain and no unrecognised hook refuses it and every base chain on it accepts |
| Order.DuplicateChainNamesMatter | internal/model/traverse.go:191-203 | Distinct chain names are needed: two documents that differ in the order of two same-named chains, one accepted, one dropped |
| Endpoints.OutputIsDeterministic | internal/model/evaluate.go:53-149 | When each socket's family is that of its bind address, every enumeration order of the endpoint map gives the same list of rows |
| Endpoints.VerdictsAscend | internal/model/evaluate.go:53-93 | The produced rows are strictly ascending: no two tie under the comparator, dual-stack expansion and forward merge included |
| Report.ReportIsComplete | internal/model/evaluate.go:53-149 | Nothing is lost and nothing made up: the report has a row for a family, protocol, address and port exactly when a socket, a published port, or a forward of a service neither of them has, names it |
| Report.MergedExactly | internal/model/evaluate.go:100-149 | The merge holds exactly those keys; a publish takes over the socket with its key and a forward takes over nothing, whatever the order within each source |
| Report.RowsAreOfEndpoints | internal/model/evaluate.go:53-93 | Every merged endpoint has a row, and every row is of a merged endpoint in a family it is evaluated for |
| Endpoints.RowLeIsTotal | internal/model/evaluate.go:74-90 | The comparator is a total preorder |
| Routes.RouteChoice | internal/model/evaluate.go:361-387 | The one-pass loop returns a device exactly when some route contains the address and all most specific ones name that device, and nothing otherwise |
| Routes.RouteOrderIsFree | internal/model/evaluate.go:361-387 | The choice does not depend on the order of the routes |
| Documents.Validate | internal/facts/validate.go:20-74 | Accepts exactly the documents in which every expression has the object its kind promises, and otherwise names the first missing one in document order |
| Documents.WholeDocumentsNeverCrash | internal/model/match.go:20-269 | In an accepted document no rule reads a missing object on any packet, skip test included, and the answer is that of the typed rule |
| Guarded.ScanNeverCrashes | internal/model/forwards.go:49-230 | In an accepted document the forward scan, jumps included, reads no missing object, and finds what it finds in the typed document |
| Guarded.RenderCrashesExactly | internal/report/render.go:16-85 | The renderer crashes exactly when an object is missing that is not that of a comparison with nothing pending; on the rules the guard accepts it renders the typed rule |
| Guarded.LoneComparisonRenders | internal/report/render.go:52-55 | So the guard refuses more than the renderer needs: a rule of one comparison without its object renders without a crash |
| Documents.GuardIsExact | internal/model/match.go:20-269 | For every rule and packet: the rule loop crashes exactly when the packet gets to an expression whose object is missing, or to an unresolved match whose skip test gets to a missing one |
| Redecoding.Redecode | internal/collect/nftconv.go:386-470 | Every xt expression ends as rebuilt from its payload, the count is the number that changed (an absent list of names and an empty one being different), nothing is left to rebuild, and for any library unmarshaler name, kind, revision and payload are preserved and an expression without a payload is untouched |
| Redecoding.RedecodeXt | internal/collect/nftconv.go:448-470 | One expression is overwritten, and the answer says whether that changed it |
| Redecoding.RedecodeAgain | internal/collect/nftconv.go:413-443 | A second run reports 0 and changes nothing |
| Ports.ParsePorts | internal/probe/probe.go:66-119 | Accepts exactly the acceptable specs, and returns strictly increasing ports that are exactly the union of the parts |
| Ports.PrintThenParse | internal/probe/remote.go:90-95 | What `Remote` renders for a non-empty list of non-zero ports with at most 4096 distinct values is accepted and read back as exactly those ports |
| Ports.IncreasingUnique | internal/probe/probe.go:96-108 | A set of ports has one increasing list, so the round trip returns the sorted distinct ports |
| Ports.SplitJoin | internal/probe/probe.go:66-95 | Splitting at commas undoes joining with them |
| Ports.ItoaReadsBack | internal/probe/probe.go:110-119 | Decimal printing reads back, digits only |
| Ports.RenderSpec | internal/probe/remote.go:90-95 | The loop builds the comma-separated rendering |
| Matcher.RunRule | internal/model/match.go:20-231 | The register loop computes the matcher function every theorem is about, outcome and action |
| Sets.CollectBounds | internal/model/match.go:637-672 | Collects all bounds, or refuses when one is unreadable or widths differ |
| Sets.IntervalScan | internal/model/match.go:637-700 | The sort-and-sweep loop computes the interval decision |
| Sets.LookupScan | internal/model/match.go:576-620 | The set lookup loop, flat and interval sets, maps and unknown sets refused |
| Walkers.Walker.WalkChain | internal/model/traverse.go:263-348 | Appends the walk's hits to the walker's and overwrites its rewrite exactly when the walk answered with one |
| Walkers.TraverseHook | internal/model/traverse.go:120-181 | Refusals first, then the sorted base chains, one walker across all of them |
| Scanners.FwdScan.WalkChain | internal/model/forwards.go:129-136 | Appends what the scan of a chain finds to what was found before |
| Scanners.FwdScan.ScanOneRule | internal/model/forwards.go:150-230 | The same for one rule, registers and immediates updated on the way |
| Scanners.FwdScan.EmitRewrite | internal/model/forwards.go:354-386 | Appends a rewrite's rows, one for each family, protocol and port, or its note |
| Scanners.FindForwards | internal/model/forwards.go:49-92 | All rewrites of all prerouting chains, the first row of each key and each note once |
| Evaluation.EvaluateAtDestination | internal/model/evaluate.go:254-349 | Two hooks with the packet's fields overwritten between them compute the row of one address |
| Evaluation.EvaluateEndpoint | internal/model/evaluate.go:207-252 | The loop over addresses computes the endpoint's row |
| Endpoints.MergeEndpoints | internal/model/evaluate.go:100-149 | Sockets, then published ports, then forwards not already reported, each overwriting its key |
| Endpoints.Evaluate | internal/model/evaluate.go:53-93 | The report is the sorted rows of the merged endpoints, whatever order the map is enumerated in |
| Routes.RouteDevFor | internal/model/evaluate.go:361-387 | The loop computes the route choice |

## Left out

- Renderers: report, table and JSON text and forwarding explanations; reasons are kept as tags that name a rule or chain, and `RenderRule` yields parts with their operands in place of the words they are spelled with.
- Rendering.PrintedMaskIsTested: a mask and a value of different widths are printed as they are, and have no reading as an equality.
- Input and output: netlink dumps, /proc, Docker, ssh and TCP dialling, command-line flags.
- Policy files: YAML, allow lists and probe reconciliation, which would add easy set bookkeeping only.
- Transparent expressions: rate limits, logs and counters match always, as in the matcher; the fixed answers for `hl`, `rt` and `icmp` are taken as given.
- Hooks: postrouting, output and egress, which the evaluator does not walk, and real conntrack state.
- Text decoding: hexadecimal operands and addresses appear as what their decoder makes of them, a failed decoding included; byte encodings of a big-endian host and IPv6 zones are not modelled.
- ForwardSoundness.NoSilentForward: says nothing about the target a row names, which is that of the first rule with its family, protocol and port, nor about rows the scan produces without need.
- Endpoints.OutputIsDeterministic: assumes each socket's family is that of its bind address, as the collector writes it.
- Order.DocumentOrderIsFree: when a hook is refused because of an ingress chain or an unrecognised hook, which of several such chains the reason names follows document order.
- Redecoding.Redecode: the nested loops over tables, chains and rules are one loop over the expressions in document order, each with its table's family.
- Ports.ParsePorts: every refusal is one answer; the error texts are not modelled.
