# tcbroker core, modelled in Dafny

tcbroker mirrors traffic between Linux network interfaces with `tc`. Each
rule attaches flower filters to the clsact qdisc of a source interface. A
filter's action chain mirrors matching packets to a destination interface.
Optionally, the chain first rewrites MAC addresses with `skbmod` and IP
addresses with `pedit`, followed by a checksum fix.

This project models the parts of tcbroker that decide what gets run and
what gets reported:

- **Configuration validation** (`Config`, config.dfy): which
  configurations, rules and rewrite options are accepted. It also gives the
  error each rejected one gets, and proves the MAC-address pattern has the
  shape `aa:bb:cc:dd:ee:ff`.
- **Argument building** (`FilterBuilder`, filter_builder.dfy): the argument
  vectors for `tc filter add`, with and without a rewrite.
  - The partner is a decoder, which reads the header, the flower matches and
    the action chain back out of a vector. It accepts the match pairs, the
    skbmod sets and the pedit munges only in the order the builder writes
    them.
  - Round-trip lemmas show that the vectors say exactly what the filter and
    the rewrite ask for.
- **Statistics parsing** (`TcParser`, tc_parser.dfy):
  - The line-by-line parser of `tc -s filter show` output is an imperative
    method. It is proved equal to a fold, `ParseSpec`, of a pure step
    function over the lines.
  - Lemmas about the fold are in `TcParserFacts` (tc_parser_facts.dfy) and
    `TcStatsLines` (tc_stats_lines.dfy). They cover one record per header
    line, header fields, match lines, mirred actions, and the "Sent" and
    "backlog" counter lines.
  - The byte formatter and the match description are in the same module.
    Checked examples are in `TcParserExamples` (tc_parser_examples.dfy).
- **Rule statistics** (`RuleStats`, rule_stats.dfy): the status command
  totals the packets and bytes for one rule. The model gives:
  - the predicate that decides whether a parsed filter belongs to a rule
    filter;
  - the nested loops that total the counters of its mirred actions;
  - a reference definition of that total, with `int64` wrap-around written
    out.
- **Running tc** (`TcRunner`, tc_runner.dfy): `Runner` is a class.
  - It keeps a log of the commands issued.
  - The result of each command comes from an outcome function fixed at
    construction: the system's reply to the n-th command.
  - Mirror filters are added per hook, stopping at the first failure.
  - Adding and deleting the clsact qdisc tolerates "already there" and
    "already gone".

Support modules:

- `GoText` (gotext.dfy) gives the Go library functions the core uses, as
  pure functions: `strings.Fields`, `TrimSpace`, `TrimRight`, `Split`,
  `Contains`, `Join`, `ToUpper`, `strconv.Itoa`, `Atoi` and `ParseInt`
  (limited to the `int64` range).
- `Patterns` (patterns.dfy) gives the few regular expressions the parser
  uses. Each is an anchored, greedy matcher behind a leftmost search.
- `SeqFacts` (seq_facts.dfy) and `Wrappers` (wrappers.dfy) are small
  generic helpers.

Two behaviours of the code are worth naming, and the model keeps both:

- The checksum action carries no control verb after it
  (pkg/filter/builder.go:119). The chain decodes it as a step without a
  verb.
- A rewrite whose four fields are all empty is rejected by the
  configuration validator (pkg/config/validator.go:63-65). The argument
  builder treats it as no rewrite at all (pkg/filter/builder.go:85), and
  `FilterBuilder.NoRewriteIsPlainMirror` states this.
One corner of the code is also kept as written. The parser does not clear
its "inside Action statistics" flag when a new filter header starts
(pkg/tc/parser.go:67-70). Match lines after such a header are then skipped
until an "action order" line clears the flag (pkg/tc/parser.go:132). A
"backlog" line cannot clear it there, since the header closed the open
action and the backlog case needs one (pkg/tc/parser.go:215).

## Model

| member | source | states |
|---|---|---|
| Config.ValidMACShape | pkg/config/validator.go:95-98 | a MAC address is accepted iff it has 17 characters, with ':' at every third position and a hexadecimal digit everywhere else |
| Config.RewriteValidIff | pkg/config/validator.go:57-92 | rewrite options pass iff at least one field is set, every set MAC is a valid MAC and every set IP is an IP address |
| Config.RuleErrorOrder | pkg/config/validator.go:25-54 | a rule's error is the first failing check, in the order name, src_intf, dst_intf, rewrite, filters; each error occurs exactly when the earlier checks pass and its own fails |
| Config.RuleValidIff | pkg/config/validator.go:25-54 | a rule passes iff name, src_intf and dst_intf are non-empty, its rewrite (if any) passes and it has a filter |
| Config.RulesFromSound | pkg/config/validator.go:15-19 | the rule scan succeeds iff every remaining rule passes; on failure it names the first failing rule with a 1-based index and carries that rule's own error |
| Config.ConfigValidIff | pkg/config/validator.go:10-22 | no rules gives "at least one rule is required"; a configuration passes iff it has rules and all pass; otherwise the error names the first failing rule |
| Config.ToFilterRewrite | pkg/tc/filter.go:33-38 | the conversion to the builder's rewrite options copies all four fields |
| Config.EmptinessAgrees | pkg/filter/builder.go:130-141 | the builder's rewrite check fails exactly when the validator reports that no rewrite field is set |
| Config.MACExamples | pkg/config/validator_test.go:39-115 | "52:54:00:12:34:56" is a valid MAC and "invalid-mac" is not |
| FilterBuilder.BuildTCArgs | pkg/filter/builder.go:12-45 | the vector starts with `filter add dev <iface> <hook> protocol ip flower` and ends with `action mirred egress mirror dev <target> continue` |
| FilterBuilder.BuildRoundTrip | pkg/filter/builder.go:12-45 | decoding the vector, in the fixed key order src_ip, dst_ip, ip_proto, src_port, dst_port, gives back the interface, the hook, every match field of the filter, and a chain of one mirror step with `continue` |
| FilterBuilder.BuildTCArgsWithRewrite | pkg/filter/builder.go:57-127 | the vector has the same fixed header and always ends with the mirror-and-continue action |
| FilterBuilder.BuildWithRewriteRoundTrip | pkg/filter/builder.go:57-127 | decoding the vector, with match keys, MAC sets (dmac before smac) and IP munges (dst before src) in the fixed order, gives back the interface, the hook, the filter and the action chain the rewrite calls for |
| FilterBuilder.MatchOrderEnforced | pkg/filter/builder.go:24-41 | the decoder refuses a match key that does not rank above the key before it, so the round trips pin the order of the pairs |
| FilterBuilder.SkbmodOrderEnforced | pkg/filter/builder.go:87-96 | the decoder refuses smac before dmac and a repeated set, so the round trip pins dmac before smac |
| FilterBuilder.MungeOrderEnforced | pkg/filter/builder.go:99-106 | the decoder refuses the src munge before the dst munge and a repeated munge, so the round trip pins dst before src |
| FilterBuilder.CompiledChain | pkg/filter/builder.go:84-124 | every chain ends with the one mirror-and-continue step, and no earlier step mirrors |
| FilterBuilder.DecodeRewriteChain | pkg/filter/builder.go:85-124 | the skbmod, pedit and csum actions decode to the set MACs, then the munged IPs with the checksum targets, then the mirror |
| FilterBuilder.NoRewriteIsPlainMirror | pkg/filter/builder.go:85 | with no rewrite, or one whose fields are all empty, the rewriting builder gives the same vector as the plain builder |
| FilterBuilder.CsumTargetsValue | pkg/filter/builder.go:110-117 | the checksum targets are "ip and tcp", "ip and udp" or "ip and icmp" for those protocols, and "ip" for any other |
| FilterBuilder.ValidateRewriteOptions | pkg/filter/builder.go:130-141 | an error exactly when rewrite options are present and all four fields are empty |
| TcParser.ParseHeader | pkg/tc/parser.go:72-99 | the field loop over a header line computes the header record of the specification (last occurrence of each keyword wins; unreadable numbers are skipped) |
| TcParser.ParseTimes | pkg/tc/parser.go:156-167 | the loop over a metadata line sets installed and used from the last occurrence of each keyword followed by two words |
| TcParser.ParseLine | pkg/tc/parser.go:52-229 | one pass of the loop body takes the parser state to the step function's result for that line |
| TcParser.ParseFilterStats | pkg/tc/parser.go:38-240 | the parser never reports an error, and its records are the fold of the step function over the lines with the last record closed |
| TcParser.FormatBytes | pkg/tc/parser.go:243-254 | below 1024 the text is the decimal number and " B"; otherwise the unit is the largest power of 1024 not above the value, and the text is the value in that unit with one decimal and the unit letter |
| TcParser.DescriptionParts | pkg/tc/parser.go:258-278 | exactly one word per present key, in the fixed order: the upper-cased protocol, then src=, dst=, sport= and dport= with their values, each at the position given by the keys present before it; none iff the filter matches on none of the five keys |
| TcParser.GetMatchDescription | pkg/tc/parser.go:280-284 | a filter that matches on none of the five keys is described as "ALL" |
| TcParser.DescriptionWords | pkg/tc/parser.go:257-285 | when the matched values are single words, splitting the description at blanks gives back exactly its parts, or the one word ALL |
| TcParserFacts.ParseOutline | pkg/tc/parser.go:38-240 | blank output gives no records; otherwise the records' headers and action kinds follow the output's outline |
| TcParserFacts.ScanOutline | pkg/tc/parser.go:52-237 | every state the scan reaches is consistent, and closing it gives one outline per header line with the actions that followed it |
| TcParserFacts.SkeletonHeaders | pkg/tc/parser.go:55-101 | the outline has one entry per header line, carrying that line's header |
| TcParserFacts.RecordPerHeaderLine | pkg/tc/parser.go:55-101 | non-blank output gives exactly one record per line that starts with "filter protocol" and mentions "handle", in order, each with that line's header fields |
| TcParserFacts.HeaderLineOpensRecord | pkg/tc/parser.go:56 | the header line tc prints for a flower filter is recognised as one |
| TcParserFacts.HeaderRoundTrip | pkg/tc/parser.go:72-99 | parsing a printed header line gives back its protocol, priority, chain and handle, with match type flower |
| TcParserFacts.UnreadableNumbers | pkg/tc/parser.go:80-95 | when no "pref" (or "chain") is followed by a number, the priority (or chain) stays 0 |
| TcParserFacts.StepMatchLine | pkg/tc/parser.go:107-122 | a match line in an open filter changes only that filter's matches |
| TcParserFacts.MatchLineStored | pkg/tc/parser.go:111-117 | an indented "key value ..." line stores the values, joined by single blanks, under the key and changes nothing else |
| TcParserFacts.FlagLineStored | pkg/tc/parser.go:118-120 | an indented single word stores "true" under it, except "not_in_hw", which changes nothing |
| TcParserFacts.BlankLineIgnored | pkg/tc/parser.go:108-121 | an indented blank line changes nothing |
| TcParserFacts.StepKeepsOpenFilter | pkg/tc/parser.go:155-228 | below the match lines, a line without "action order" keeps the open filter and the identity of the open action |
| TcParserFacts.MirredAction | pkg/tc/parser.go:135-150 | a mirred action line yields kind mirred, the first two words in parentheses as the operation, and the device after "to device" as the target |
| TcParserFacts.OtherAction | pkg/tc/parser.go:131-136 | an action line without "mirred" opens an action with no kind and no target device |
| TcStatsLines.SentRoundTrip | pkg/tc/parser.go:175-211 | a full "Sent" line sets bytes, packets, dropped, overlimits and requeues to the numbers it shows, and nothing else |
| TcStatsLines.ShortSentRoundTrip | pkg/tc/parser.go:179-210 | a "Sent" line without the parenthesised counters sets bytes and packets and keeps the other three |
| TcStatsLines.CounterMissing | pkg/tc/parser.go:191-210 | a counter whose name, followed by a blank, does not occur in the line is not read, so that counter keeps its value |
| TcStatsLines.MetadataRoundTrip | pkg/tc/parser.go:155-167 | an indented "index … installed N sec used M sec" line sets installed to "N sec" and used to "M sec", and nothing else |
| TcStatsLines.SentLineKind | pkg/tc/parser.go:56-176 | the indented "Sent" line is none of the line kinds the parser tests before it |
| TcStatsLines.StepSent | pkg/tc/parser.go:176-212 | inside a statistics block a "Sent" line sets the open action's five counters; outside one it changes nothing |
| TcStatsLines.BacklogRoundTrip | pkg/tc/parser.go:215-225 | a "backlog" line sets the backlog bytes and packets to the numbers it shows, and nothing else |
| TcStatsLines.BacklogLineKind | pkg/tc/parser.go:56-215 | the indented "backlog" line is none of the line kinds the parser tests before it |
| TcStatsLines.StepBacklog | pkg/tc/parser.go:215-228 | inside a statistics block a "backlog" line sets the backlog and ends the block; outside one it changes nothing |
| TcParserExamples.ScaledExamples | pkg/tc/parser_test.go:140-159 | 1024, 1536, 1048576, 1572864 and 1073741824 bytes read as 1.0 KB, 1.5 KB, 1.0 MB, 1.5 MB and 1.0 GB |
| TcParserExamples.UnitIndexExamples | pkg/tc/parser_test.go:140-159 | those byte counts select K, K, M, M and G |
| TcParserExamples.OneUnit | pkg/tc/parser.go:253 | exactly one unit prints as "1.0" and the unit |
| TcParserExamples.OneAndAHalfUnits | pkg/tc/parser.go:253 | one and a half units print as "1.5" and the unit |
| TcParserExamples.IcmpOnly | pkg/tc/parser_test.go:168-172 | a filter matching ip_proto icmp is described as "ICMP" |
| TcParserExamples.TcpToPort | pkg/tc/parser_test.go:173-177 | tcp to port 80 is described as "TCP dport=80" |
| TcParserExamples.UdpFromNetToPort | pkg/tc/parser_test.go:178-182 | udp from 192.168.1.0/24 to port 53 is described as "UDP src=192.168.1.0/24 dport=53" |
| TcParserExamples.NoMatchIsAll | pkg/tc/parser_test.go:183-187 | a filter without matches is described as "ALL" |
| RuleStats.MatchesFilter | cmd/tcbroker/status.go:234-286 | the early-return checks and the device search decide exactly the matching predicate: each set rule field equals the parsed match (ports as decimal text), and a non-empty destination has a mirred action to it |
| RuleStats.MatchesBuiltPairs | cmd/tcbroker/status.go:234-286 | a parsed filter matches a rule filter iff it holds every key/value pair the builder would emit for it, and sends to the destination when one is named |
| RuleStats.GetRuleStats | cmd/tcbroker/status.go:199-231 | without a listing the totals are 0 and 0; otherwise they are the int64-wrapped sums over rule filters, matching parsed filters, and their actions to the destination device |
| RuleStats.SumMatched | cmd/tcbroker/status.go:213-228 | the two outer loops compute the int64-wrapped reference totals |
| RuleStats.AddMirrored | cmd/tcbroker/status.go:220-225 | starting from int64 running sums, the innermost loop ends with each sum plus the exact counters of the actions to the device, wrapped to int64 once |
| RuleStats.WrapAdd | cmd/tcbroker/status.go:222-223 | adding to an already wrapped int64 sum gives the wrap of the exact sum, so the order of the additions does not matter |
| RuleStats.RuleTotalsAppend | cmd/tcbroker/status.go:214-228 | the totals of two lists of rule filters are the sum of the totals of each |
| RuleStats.CountedTwice | cmd/tcbroker/status.go:214-228 | a parsed filter matched by two rule filters contributes its counters twice |
| RuleStats.TwoFilters | cmd/tcbroker/status.go:214-228 | a rule with two filters totals the sum of what each filter adds on its own |
| RuleStats.OtherDeviceIgnored | cmd/tcbroker/status.go:218-224 | an action that sends to another device does not change the totals |
| RuleStats.NoActionOnDevice | cmd/tcbroker/status.go:220-225 | a filter with no action to the device contributes nothing |
| TcRunner.Runner.constructor | pkg/tc/runner.go:17-22 | a new runner has issued nothing |
| TcRunner.Runner.Run | pkg/tc/runner.go:25-44 | a run appends the arguments to the log and returns the system's reply to that command |
| TcRunner.Runner.AddMirrorFilter | pkg/tc/filter.go:14-50 | an unknown direction issues nothing and fails with "invalid direction '<d>'"; otherwise the per-hook commands run in order until the first failure, whose hook, error and stderr the message names |
| TcRunner.Runner.RunHooks | pkg/tc/filter.go:27-48 | the loop issues a prefix of the commands, all successful except possibly the last; it fails iff the last issued one failed |
| TcRunner.Runner.SucceedsIffAllRan | pkg/tc/filter.go:27-49 | adding filters succeeds iff every hook's command succeeded; a failure means the last issued command failed |
| TcRunner.Runner.EnsureClsactQdisc | pkg/tc/qdisc.go:12-26 | issues exactly `qdisc add dev <iface> clsact`; succeeds iff the command succeeded or stderr says "File exists"; otherwise fails with the interface, error and stderr |
| TcRunner.Runner.DeleteClsactQdisc | pkg/tc/qdisc.go:30-43 | issues exactly `qdisc del dev <iface> clsact`; succeeds iff the command succeeded or stderr says the qdisc or device is gone; otherwise fails with the interface, error and stderr |
| TcRunner.Hooks | pkg/tc/filter.go:15-25 | only ingress, egress and both are accepted; ingress and egress give that one hook, both gives ingress then egress |
| TcRunner.Commands | pkg/tc/filter.go:27-42 | one command per hook |
| TcRunner.CommandsDecode | pkg/tc/filter.go:30-42 | each hook's command decodes to that interface and hook, the filter, and the chain for the converted rewrite (plain mirror without one) |
| TcRunner.GoneWithoutRtnetlink | pkg/tc/qdisc.go:34-37 | the fourth "already gone" text is redundant: the condition holds iff one of the first three does |

## Left out

- Running the `tc` binary, the dry-run and debug modes, and printing the
  command line (pkg/tc/runner.go:26-43) are outside the model. Each
  command's reply comes from the outcome function a `Runner` is built with.
  A dry run is the outcome function that always succeeds with empty output.
- `net.ParseIP` is a predicate parameter `isIP` of the validation
  functions. IP syntax is not modelled.
- TcParser.FormatBytes: the `%.1f` of a float64 quotient is modelled as exact decimal
  rounding to one place, half to even. This differs from float64 only
  where the quotient itself is not exactly representable (beyond 2^53
  bytes).
- GoText.ToUpper: upper-cases the ASCII letters a to z only, whereas Go's
  `strings.ToUpper` (used at pkg/tc/parser.go:261) also maps non-ASCII
  letters, such as "é" to "É". The protocol names tc prints under ip_proto
  are ASCII, and for ASCII text the two agree.
- The regular expressions are specific matchers for the five patterns the
  parser uses, not a general regular-expression engine.
- RuleStats.GetRuleStats takes the `tc -s filter show` text as an
  `Option<string>`, which is `None` when the listing failed. Listing the
  filters of the source interface (pkg/tc/status.go:30-37) is not part of
  this model. Rules are always installed on the ingress hook
  (cmd/tcbroker/start.go:98-99), which is the hook listed at
  cmd/tcbroker/status.go:203.
- RuleStats.GetRuleStats keeps its three nested loops, but the outer two
  are in `SumMatched` and the innermost in `AddMirrored`.
- TcRunner.Runner.AddMirrorFilter builds the argument vectors of all hooks
  before its loop runs them (`RunHooks`). This issues the same commands in
  the same order, because building issues nothing.
- The command-line front end (root, start, stop and validate, and the
  printing parts of status), configuration loading from YAML
  (pkg/config/loader.go), and the teardown sweep (pkg/tc/cleanup.go) are
  not part of this model. They are I/O and orchestration around the
  modelled operations.
