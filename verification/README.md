# A verified model of chrome

This Dafny project models the hard core of the proxy manager "chrome" and proves what that core is for. `dafny verify dfyconfig.toml` verifies all of it.

| module | source | what it is about |
|---|---|---|
| `CharSets`, `Utf8`, `Globs`, `GlobCompile`, `GlobRun`, `MatchSets`, `GlobMeaning`, `GlobMisses`, `GlobExcess`, `GlobLiterals` | internal/matchset/matchset.go | the glob compiler and the matcher that runs on reversed sources |
| `AddrRanges`, `Prefixes` | internal/netiputil | address sets as sorted ranges; prefixes as ranges |
| `Lines`, `AllowLists`, `AllowTexts`, `Routes` | service/http/http.go | scanning lines, allow lists, checksums, routes and their cache |
| `Failover` | service/socks/balancer/failover/failover.go | the candidates that are ranked by score |
| `Race`, `RaceRuns` | conn.go | racing attempts behind one connection, and the hand-over to the relay |
| `Relays` | relay.go | two copiers and a timer loop that share a channel |
| `ConnCheckers` | internal/netutil/connchecker.go | reading ahead without disturbing the stream |
| `Managers` | service.go, service/tcptun/tcptun.go | reloading, with events to jobs that run on their own |
| `DnsCaches` | service/tcptun/dnstun/dnstun.go | times to live: clamped when stored, aged when served |
| `Basics` | | definitions that the others share |

**Form.** What the source changes in place is changed in place here: bit sets and atoms in arrays, `MatchSet`, `AddrRangeSet`, the parser and allow list, `Queue`, `ConnChecker` and `DnsCache` as classes whose methods are proved against functions of their state. The concurrent parts (`Race`, `Relays`, `Managers`) are state machines: every turn of the executor, every completion of a goroutine and every timer is a step, steps come in any order, and the main results hold for every state that some run reaches.

**Globs.** A pattern is a list of tokens, and `Globs.GlobIn` is its meaning. `CompilePreserves` says that merging, swapping and reversing keep it. `RunExact` gives the exact language of the matcher for every compiled pattern and every non-empty source. The comments in the source promise more than the code does in three cases, each with a lemma that shows it: two stars can end up side by side (`TwoStarsLast`), a `*` next to a leading '.' lets ':' pass (`ColonPasses`), and `*.` misses the sources that start with '.' (`LeadingDotMissed`; `**.` and `.*.` miss none). These are all the cases, but for the patterns that "Left out" names: `MissedExactly` and `MissesNothingIff` say exactly what is missed, `AddsNothingIff` for which patterns something is taken in excess, and `AgreesIff` for which patterns the matcher does what the glob means on every source.

**Groups.** The byte counter of the loop that adds a range starts again at 0 after 255, so a group with a range up to the last byte is never scanned to its end (`TopRangeNeverEnds`); `ScanEndsIff` says that no other group is like that.

**Races.** An answer in time wins (`AnswerInTimeWins`). Whatever the order of reads, writes, replies, timeouts and cancellations, the winner gets the client's bytes in order and without gap or repeat, losers get a beginning of the buffered request, and the counters are right. From every state a race can be completed, and a winner that waits can get to the relay. One thing the code does not guarantee: an attempt that is still dialling when another one has taken over can answer with the error that closes the connection, and this sets a read deadline in the past on a connection that is being relayed (`ClosedAfterHandOver`). `DeadlineAfterHandOver` says that the race itself does so in no other way; the deadlines that the relay sets are in `Relays`.

**Reloads.** The allow lists of the routes are built by `AllowList.Init` and kept in the state, so that `ReloadAndLookUp` speaks of the texts that were loaded and the proxy that comes out, and `LookUpAcrossReload` of a lookup that a reload overtakes.

**Time to live.** A reply is looked up at one moment and aged at a later one. It has at least a second left if and only if it is aged before the deadline (`ServedTooLate`).

## Model

| member | source | states |
|---|---|---|
| Basics.ReverseInPlace | internal/matchset/matchset.go:240-242 | exchanging from both ends leaves the elements in opposite order |
| Basics.Search | internal/netiputil/rangeset.go:21-21 | the index found splits the list into elements on which a monotone test is false and true |
| CharSets.Add | internal/matchset/matchset.go:9-13 | setting a bit of the eight words adds just that byte to the set they represent |
| CharSets.Invert | internal/matchset/matchset.go:15-19 | the words then represent the complement |
| CharSets.CharSetFromGroup | internal/matchset/matchset.go:49-118 | for every text after '[' the words represent the set that the group grammar gives (ranges, literal '-', leading '^', missing ']'), and what is left starts after the ']' |
| CharSets.LastStep | internal/matchset/matchset.go:105-115 | what is added after the last byte completes the union of the items, and the set is inverted exactly for a leading '^' |
| CharSets.OnlyAllRepresentsEveryByte | internal/matchset/matchset.go:131-133 | comparing with the full words detects just the groups that contain every byte |
| CharSets.RangeEndsIff | internal/matchset/matchset.go:83-85 | the loop with its wrapping byte counter ends if and only if the range ends below the last byte |
| CharSets.ScanEndsIff | internal/matchset/matchset.go:61-103 | every range loop that the scanner enters ends if and only if no range of the group ends at the last byte |
| CharSets.TopRangeNeverEnds | internal/matchset/matchset.go:83-85 | a group that is never scanned to its end |
| Utf8.DecodeEncodeRune | internal/matchset/matchset.go:302-303 | decoding the first rune of a stored pattern gives that rune and its width for scalar values, and the error rune otherwise |
| Utf8.DecodeEncode | internal/matchset/matchset.go:252-253 | storing loses nothing if and only if every atom is a scalar value |
| Globs.InReversed | internal/matchset/matchset.go:236-242 | reversed tokens match a reversed source exactly when the tokens match the source |
| Globs.InConcat | internal/matchset/matchset.go:28-34 | a concatenation matches exactly what splits into matches of its parts |
| Globs.PartnersCommute | internal/matchset/matchset.go:244-249 | exchanging `*` and `?`, or `**` and `_`, changes no match in any context |
| Globs.StarsMerge | internal/matchset/matchset.go:177-190 | two stars in a row match what the wider of them matches |
| Globs.MarkedReversed | internal/matchset/matchset.go:220-228 | edges at either end keep their meaning under reversal |
| GlobCompile.MergeSame | internal/matchset/matchset.go:174-211 | the list that parsing builds matches what the tokens match |
| GlobCompile.MergeMarked | internal/matchset/matchset.go:215-228 | merging before replacing the outer dots means the same as replacing them in the raw tokens |
| GlobCompile.BubbleMarked | internal/matchset/matchset.go:244-249 | the pass over the reversed atoms keeps the meaning and leaves the edges where they are |
| GlobCompile.CompilePreserves | internal/matchset/matchset.go:169-254 | for every token list the compiled list matches the reversed source if and only if the tokens mean the source |
| GlobRun.LookAheadExact | internal/matchset/matchset.go:355-371 | the look-ahead at the last byte is true exactly when the rest of the pattern needs no more bytes |
| GlobRun.RunBody | internal/matchset/matchset.go:324-380 | below a leading edge the automaton takes exactly the language of the body, for every source |
| GlobRun.RunLead | internal/matchset/matchset.go:306-323 | a leading edge lets the body start at the front or behind any '.' |
| GlobRun.RunExact | internal/matchset/matchset.go:266-384 | for every compiled pattern and every non-empty source the automaton reports if and only if the source is in its exact language |
| GlobRun.ExactlyReached | internal/matchset/matchset.go:296-384 | unless two stars end the comparison, what is in the meaning and not in the exact language is just a lone `*` behind an edge on a source that starts with '.' |
| MatchSets.AcceptsExact | internal/matchset/matchset.go:266-384 | what the matcher takes for the text of a pattern is the exact language of its compiled form |
| MatchSets.MatchSet.ReadAtom | internal/matchset/matchset.go:124-167 | the atom read means the token read, the two tables stay inverse, known atoms keep their meaning |
| MatchSets.MatchSet.ParseAtoms | internal/matchset/matchset.go:169-211 | the atoms built step by step mean the merged tokens of the pattern |
| MatchSets.MatchSet.Parse | internal/matchset/matchset.go:215-230 | the atoms returned mean the merged tokens with their outer dots replaced |
| MatchSets.MatchSet.BubbleStars | internal/matchset/matchset.go:244-249 | the in-place pass computes the pass on token lists |
| MatchSets.MatchSet.Store | internal/matchset/matchset.go:233-252 | the stored bytes decode to atoms that mean the compiled pattern |
| MatchSets.MatchSet.Add | internal/matchset/matchset.go:233-254 | one pattern more, and every earlier pattern still means what it was added for |
| MatchSets.LookAheadStored | internal/matchset/matchset.go:356-371 | looking at the stored bytes decides as looking at the atoms does |
| MatchSets.MatchSet.CheckPattern | internal/matchset/matchset.go:296-384 | one step reports, or leaves active patterns that report later, exactly when the automaton does |
| MatchSets.MatchSet.MatchOne | internal/matchset/matchset.go:277-292 | the loop over the reversed source reports the data of the pattern, and no other, exactly for the sources in its language |
| MatchSets.MatchSet.Match | internal/matchset/matchset.go:260-294 | data is reported if and only if some pattern with this data takes the source |
| GlobMeaning.MissedExactly | internal/matchset/matchset.go:260-384 | unless two stars end the comparison, a source is meant and not taken if and only if it starts with '.' and the glob is `*.` |
| GlobMeaning.MatcherMeans | internal/matchset/matchset.go:260-384 | without two stars at the end, and without a `*` that meets a ':' next to a leading '.', the matcher takes exactly what the glob means, but for what `*.` misses |
| GlobMeaning.PlainTakesItself | internal/matchset/matchset.go:354-380 | a pattern without special bytes takes itself and nothing else |
| GlobLiterals.AnyByte | internal/matchset/matchset.go:150-164 | between plain bytes, `_` stands for any one byte, and the pattern takes nothing else |
| GlobLiterals.OneByte | internal/matchset/matchset.go:150-164 | the same for `?` and any byte but '.' and ':' |
| GlobLiterals.SomeBytes | internal/matchset/matchset.go:150-164 | the same for `*` and any bytes without '.' and ':', on every non-empty source |
| GlobLiterals.AllBytes | internal/matchset/matchset.go:150-164 | the same for `**` and any bytes at all |
| GlobLiterals.OneOfGroup | internal/matchset/matchset.go:124-148 | the same for a group and one of its members |
| GlobLiterals.GroupMembers | internal/matchset/matchset.go:49-118 | which bytes "a-c", "^a-c", "]a", "a-", "-a", "c-a", "^", "^-" and "^-z" stand for between brackets |
| GlobLiterals.DotsTake | internal/matchset/matchset.go:215-230 | a plain pattern with a leading or a trailing '.' takes the plain bytes with anything before that ends with '.', or after that starts with '.' |
| GlobLiterals.DotsAlone | internal/matchset/matchset.go:215-230 | the empty pattern, "." and ".." take every source but the empty one |
| GlobMeaning.TwoStarsLast | internal/matchset/matchset.go:244-249 | `**?*` means "a" and does not take it |
| GlobMeaning.ColonPasses | internal/matchset/matchset.go:355-371 | `.*` does not mean "a:a" and takes it |
| GlobMeaning.LeadingDotMissed | internal/matchset/matchset.go:319-321 | `*.` means ".a" and does not take it |
| GlobMisses.CompileMends | internal/matchset/matchset.go:169-254 | in a compiled pattern stars meet only right behind a `?` or `_` that has passed one of them |
| GlobMisses.MissesNothingIff | internal/matchset/matchset.go:260-384 | a glob whose groups have members misses no source if and only if no two stars end the comparison and it is not `*.` |
| GlobExcess.AddsNothingIff | internal/matchset/matchset.go:324-345 | a glob whose groups have members takes no source in excess if and only if no `*` stands next to its leading '.' without a `**` among them, or a `**` and a token that takes ':' come right before in the order of comparison |
| GlobExcess.ShieldAddsNothing | internal/matchset/matchset.go:324-345 | such a `**` and token let no ':' pass that the glob does not mean |
| GlobExcess.AgreesIff | internal/matchset/matchset.go:260-384 | for which globs the matcher takes exactly what the glob means, over all non-empty sources |
| AddrRanges.AddrRangeSet.AddRange | internal/netiputil/rangeset.go:18-63 | the set becomes its union with the range, empty and reversed ranges included, and the list stays sorted, non-empty per entry and strictly separated |
| AddrRanges.AddrRangeSet.Add | internal/netiputil/rangeset.go:14-16 | the same for a range as one value |
| AddrRanges.AddrRangeSet.Contains | internal/netiputil/rangeset.go:65-68 | the binary search answers membership in the set |
| AddrRanges.Widened | internal/netiputil/rangeset.go:34-62 | replacing the ranges between the two search results by one range adds exactly the new addresses and keeps the separation |
| AddrRanges.Canonical | internal/netiputil/rangeset.go:18-63 | two separated lists of the same addresses are the same list |
| AddrRanges.OrderAndRepeats | internal/netiputil/rangeset.go:18-63 | adding the same ranges in any order and any number of times gives the same list |
| AddrRanges.AddAll | internal/netiputil/rangeset.go:14-63 | after any sequence of additions the list is separated and holds just the addresses of the ranges |
| Prefixes.OrFills | internal/netiputil/parse.go:28-28 | or-ing a low mask into a byte with cleared low bits sets just these bits |
| Prefixes.MaskedNumber | internal/netiputil/parse.go:15-15 | masking byte by byte clears the free bits of the whole address |
| Prefixes.FilledNumber | internal/netiputil/parse.go:23-29 | filling byte by byte gives the last address of the prefix |
| Prefixes.Fill | internal/netiputil/parse.go:19-29 | the loop sets every free bit in place and no other |
| Prefixes.PrefixIsRun | internal/netiputil/parse.go:15-57 | the addresses that agree with the prefix are those from its masked to its filled address |
| Prefixes.PrefixBits | internal/netiputil/parse.go:8-15 | an address is in the prefix if and only if its first bits are those of the bytes of the prefix, bit by bit |
| Prefixes.ParsePrefix | internal/netiputil/parse.go:8-62 | an address is in the prefix if and only if it is in the range or is the closed end, the range is closed exactly when the prefix contains the last address, and other widths are an error |
| Lines.ScanLines | service/http/http.go:760-780 | the next line that counts; no line is lost, split or made up whatever text comes later |
| Lines.ScanAll | service/http/http.go:87-94 | a text that arrives in pieces gives the trimmed lines of the whole text without blanks and comments |
| Lines.TrimDropped | service/http/http.go:764-772 | dropping a carriage return before trimming changes nothing |
| Lines.TrimIs | service/http/http.go:764-772 | trimming takes white space off both ends and nothing else, and leaves none there |
| Lines.SpaceIsWhite | service/http/http.go:764-772 | what is taken off is the encoding of a code point that is white space in Unicode |
| Lines.LinesOfText | service/http/http.go:760-780 | lines end with a line feed or at the end of the text, and count unless they are blank or start with '#' |
| AllowLists.ReadHostPort | service/http/http.go:158-168 | a host with ':' and digits is read as pattern and port, in brackets too, and as one pattern if the host holds another ':' |
| AllowLists.ReadHost | service/http/http.go:158-168 | a text without a port is a pattern for every port |
| AllowLists.WithPortAccepts | service/http/http.go:170-197 | merging a line into the ports of its pattern accepts what was accepted and what the line accepts |
| AllowLists.NetAccepts | service/http/http.go:143-156 | the range and the literal of the last address together accept exactly the prefix |
| AllowLists.Settings.AddName | service/http/http.go:170-197 | the map of patterns becomes the merged one |
| AllowLists.Settings.AddNet | service/http/http.go:143-156 | after a prefix line the settings accept what all lines so far accept; an unreadable prefix is an error |
| AllowLists.AllowListParser.ParseRule | service/http/http.go:133-197 | the line read goes to its side, which then accepts what all its lines do, the other side keeps its meaning, and the line fails only if its prefix is unreadable |
| AllowLists.AllowListParser.ParseLines | service/http/http.go:119-131 | the settings mean all lines of the text and of the files it includes, and parsing fails exactly if one of them is missing or unreadable |
| AllowLists.WalkFlat | service/http/http.go:200-225 | whatever is done along included files is what is done on the flat list of their lines |
| AllowLists.LinesScanned | service/http/http.go:87-94 | scanned lines are never empty and hold no line break |
| AllowLists.ChecksumLines | service/http/http.go:227-281 | the hash function is fed every line of the text and of the files it includes, each with a line break |
| AllowLists.SameChecksumSameRules | service/http/http.go:445-455 | two texts that feed the hash function alike hold the same rules, even if read at different times |
| AllowLists.AddPatterns | service/http/http.go:96-102 | every pattern is in the matcher with its ports, whatever the order of the map |
| AllowLists.Match | service/http/http.go:288-300 | a side accepts if its ranges hold the address or some pattern takes the host and allows the port |
| AllowLists.AllowList.Init | service/http/http.go:84-108 | the list decides as its lines do, taken one by one |
| AllowLists.AllowList.Allow | service/http/http.go:283-286 | a host is allowed if and only if some include line accepts it and no exclude line does |
| AllowLists.OrderIndependent | service/http/http.go:283-286 | the decision does not depend on the order of the lines or on repeats |
| AllowTexts.RuleOfText | service/http/http.go:143-168 | what a text is read as accepts just what the text says: a prefix, a host, or a host with a port, in brackets or not |
| AllowTexts.LinesOfTexts | service/http/http.go:133-141 | texts that start with '!' exclude and all others include, each by what it says |
| AllowTexts.IncludedInPlace | service/http/http.go:119-131 | the lines of a file come in place of the line that names it, with "./" and "../" relative to the file it stands in |
| AllowTexts.Decide | service/http/http.go:84-300 | from text to decision through `Init` and `Allow`: a query is allowed if and only if a line without '!' says so and no line with '!' does |
| AllowTexts.LastTexts | service/http/http.go:156-156 | the two texts that stand for the last addresses |
| Routes.Routing.Load | service/http/http.go:534-535 | a route is found just when one is remembered for the address, and is the first one that allows it |
| Routes.Routing.Scan | service/http/http.go:545-554 | the loop finds the first route that allows the address, or none |
| Routes.Routing.Store | service/http/http.go:550-550 | just this address is remembered in addition, and caches stay right, also for options that were received before a reload |
| Routes.Routing.Choose | service/http/http.go:530-559 | for options received at any time before, the proxy is that of the first of their routes that allows the address, or the default, cached or not; what was chosen is remembered, and nothing else |
| Routes.Routing.GetOpts | service/http/http.go:530-559 | the same for the options in force |
| Routes.Routing.Build | service/http/http.go:444-455 | a new list decides as the lines of its text and included files do, and cannot be built exactly if one of them cannot be read |
| Routes.Routing.Rebuild | service/http/http.go:441-463 | building with lists taken over gives what building everything anew gives, and takes over exactly the lists whose name and checksum stay |
| Routes.Routing.Taken | service/http/http.go:444-445 | an old list is taken over if and only if its checksum is that of what is on the disk now, and then is as good as a new one |
| Routes.Routing.LoadEvent | service/http/http.go:398-478 | a reload takes effect as if all routes had been built anew, or fails and changes nothing; it fails exactly if the listen address is malformed or some text cannot be read; routes and cache stay if the configured routes do, and otherwise nothing is remembered |
| Routes.Routing.ReloadAndLookUp | service/http/http.go:398-559 | after a reload an address gets the proxy of the first configured route whose text allows it, or the default; if the reload fails, what it got before |
| Routes.Routing.ConfiguredIs | service/http/http.go:545-554 | that proxy is the one of route k when route k allows the query and no route before it does, and the default when none does |
| Routes.Routing.LookUpAcrossReload | service/http/http.go:530-559 | a lookup that a reload overtakes gets what was in force when it began |
| Failover.ComputeFib | service/socks/balancer/failover/failover.go:362-368 | the loop computes the Fibonacci numbers, and 0 for counts below 1 |
| Failover.StandingMoves | service/socks/balancer/failover/failover.go:157-187 | success and failure keep scores within 0 to 64 and move every score but the extreme one |
| Failover.SuccessesInARow | service/socks/balancer/failover/failover.go:157-171 | after k successes in a row the score has grown by the sum of the first k Fibonacci numbers, the ninth for every further one, up to 64 |
| Failover.FailuresInARow | service/socks/balancer/failover/failover.go:173-187 | after k failures in a row the score has fallen by that sum, down to 0 |
| Failover.FibValues | service/socks/balancer/failover/failover.go:362-368 | the nine numbers that a score can move by |
| Failover.Elem.Succ | service/socks/balancer/failover/failover.go:157-171 | the fields change as the standing does on success |
| Failover.Elem.Fail | service/socks/balancer/failover/failover.go:173-187 | the fields change as the standing does on failure |
| Failover.SiftDown | service/socks/balancer/failover/failover.go:77-82 | the element moves past exactly the higher scores behind it, and the others keep their order |
| Failover.SiftUp | service/socks/balancer/failover/failover.go:83-88 | the element moves past exactly the lower scores before it |
| Failover.Queue.ScoreChanged | service/socks/balancer/failover/failover.go:109-135 | the two counters follow the change of one score |
| Failover.MeanBetween | service/socks/balancer/failover/failover.go:101-101 | some score reaches the floored mean and some does not exceed it |
| Failover.RecentredKeeps | service/socks/balancer/failover/failover.go:96-106 | re-centring keeps the range 0 to 64 and the order, and afterwards neither side of the middle has all scores |
| Failover.RecentredMean | service/socks/balancer/failover/failover.go:96-106 | re-centring puts the floored mean at 32 and keeps every difference, and happens only when all scores are on one side |
| Failover.Queue.Recentre | service/socks/balancer/failover/failover.go:92-106 | the scores become the re-centred ones and the counters are true counts |
| Failover.Queue.Fix | service/socks/balancer/failover/failover.go:59-107 | after any report the elements are a rearrangement that moves one element, sorted by descending score, with true counters that are both below the length; the element has moved against all others by what its standing gained or lost |
| Failover.Queue.CountTies | service/socks/balancer/failover/failover.go:46-48 | the search finds just the elements tied at the top |
| Failover.Queue.TopNotLow | service/socks/balancer/failover/failover.go:92-94 | the best score is at least half of the maximum |
| Failover.Queue.Pick | service/socks/balancer/failover/failover.go:44-54 | the random number selects among just the elements tied at the top, and the one picked is reported as old exactly if it was picked last time |
| Failover.Queue.constructor | service/socks/balancer/failover/failover.go:36-42 | a new queue has all elements at the middle and satisfies the invariant |
| Failover.Conn.Read | service/socks/balancer/failover/failover.go:342-352 | the first bytes are reported once, as a success: the score of the candidate then rises against every other one, unless it was 64, and the elements stay the same |
| Failover.Conn.Close | service/socks/balancer/failover/failover.go:354-360 | a failed read without any success is reported once, as a failure: the score of the candidate then falls against every other one, unless it was 0 |
| Race.StepKeeps | conn.go:59-510 | every step of the executor, of a goroutine or of a timer keeps the invariant of the race |
| Race.CountsInEveryRun | conn.go:155-200 | at any moment of any run: at most one winner, n counts the live attempts and is at most Parallel, attempts is at most MaxAttempts, response and max-attempts are never both reported, and the request stays below 32768 bytes plus one buffer |
| Race.BytesInEveryRun | conn.go:212-351 | the winner has got, holds and has still to get the client's bytes in order without gap or repeat; a loser has got a beginning of the request; the client gets the winner's bytes from the first one |
| Race.HandOverIsClean | conn.go:321-344 | when the winner relays, the reader and the loop are over, no write is under way, and no past deadline is left on its connection |
| Race.EndedIsQuiet | conn.go:191-201 | nothing of an attempt that has ended still runs |
| Race.OverIsQuiet | conn.go:489-497 | when all is over no step is left, so the buffers can be given back |
| Race.EarlyNearer | conn.go:361-477 | until the request and the loop are over, a named step is possible and brings their end nearer |
| Race.TryNearer | conn.go:202-357 | after that every attempt that has not ended has a named step that brings it nearer to its end, and a waiting winner nearer to the relay |
| Race.Completes | conn.go:202-357 | from every state of every run the race can be brought to its end |
| Race.WinnerRelays | conn.go:321-344 | a winner that waits can always get to the relay, whatever the other attempts do |
| Race.ExpiredNeverWins | conn.go:310-312 | an attempt that has timed out never wins later in the run |
| RaceRuns.AnswerInTimeWins | conn.go:305-324 | in every run in which the timer of an attempt does not expire: if the attempt is over although its first byte came without error, some attempt has won, and this was reported |
| RaceRuns.AnswerWinsAtOnce | conn.go:305-324 | an attempt that was answered in time before any other has won can be judged next, and then is the winner |
| RaceRuns.ConnectedUntilAnswer | conn.go:202-207 | an attempt whose dial did not fail is not over before its answer has come |
| RaceRuns.CancelledStopsReading | conn.go:266-273 | whenever a waiting attempt is cancelled, its read has been made to fail, or is next |
| RaceRuns.DecidedStopsWriting | conn.go:255-260 | whenever an attempt is decided, its sender has been told to stop and its write made to fail |
| RaceRuns.FailedWriteIsLast | conn.go:242-252 | after a failed write no more of the request is sent to that attempt |
| RaceRuns.FailedRelayWriteIsLast | relay.go:78-82 | after a failed or short write of the relay nothing more is written in that direction, in any run |
| RaceRuns.BeginsIff | conn.go:398-419 | the loop begins an attempt if and only if it is not stopped, no interval runs, and there is room for one more |
| RaceRuns.AttemptsApart | conn.go:361-389 | between the beginnings of two attempts the interval timer runs out |
| RaceRuns.RequestIsRead | conn.go:454-477 | unless a read fails, the request is read until it has 32768 bytes, and no further |
| RaceRuns.ReadsMadeToFail | conn.go:146-151 | reads from the client are made to fail by a winner and by a dial that asks to close, until the hand-over |
| RaceRuns.RequestReaches | conn.go:220-257 | whatever of the request was read can be brought to an attempt that is connected |
| RaceRuns.UpDelivers | conn.go:332-342 | the relay can bring everything that the client writes to the winner |
| RaceRuns.DownDelivers | conn.go:332-342 | the relay can bring everything that the winner sends to the client, the first byte included |
| Race.AttemptsAreSpaced | conn.go:361-425 | no attempt begins while the interval timer has not run out |
| Race.DeadlineAfterHandOver | conn.go:146-151 | after the hand-over the race itself makes reads from the client expire if and only if a remaining dial asks to close the connection |
| Race.ClosedAfterHandOver | conn.go:182-184 | a run in which just this happens to a winner that is relaying |
| Relays.StepKeeps | relay.go:64-126 | every step of the copiers, the timer and the loop keeps the invariant of the relay |
| Relays.NoSendAfterClose | relay.go:68-94 | in every interleaving nothing is sent on the closed channel |
| Relays.TimeoutInForce | relay.go:112-125 | the timeout in force is the last end-of-stream timeout received, or the first one; read notices never change it |
| Relays.OptionsInForce | relay.go:40-62 | an option of the call comes first, then that of the service, and then the built-in one |
| Relays.ReadsRestartTimer | relay.go:89-124 | when nothing waits in the channel, the timer was restarted at or after the last read |
| Relays.ReadsMadeToFail | relay.go:78-84 | after a failed copy, and after the timer has expired, the reads of the other side fail |
| Relays.ExpiresWhenIdle | relay.go:89-111 | the timer can expire if and only if the timeout in force has passed since it was restarted; with nothing in the channel, no read happened for as long |
| Relays.ReturnsLast | relay.go:113-118 | the loop returns only after both copiers have ended, with the timeout of each clean copy received and no deadline left |
| Relays.SenderProceeds | relay.go:86-86 | a copier that waits for room in the channel gets it with the next receive |
| Relays.NeverStuck | relay.go:105-126 | once both copies are over a step towards the end is always possible |
| Relays.EndComesNearer | relay.go:105-126 | each of these steps brings the end nearer |
| Relays.EndsCleanly | relay.go:71-87 | a copy that meets the end of its stream can get to its end, with its own timeout in force |
| ConnCheckers.FullIsDrained | internal/netutil/connchecker.go:95-102 | when a reader is full, the one it was made from holds nothing any more |
| ConnCheckers.GrownHolds | internal/netutil/connchecker.go:101-103 | the larger reader gives what the full one held |
| ConnCheckers.ConnChecker.ReadSource | internal/netutil/connchecker.go:101-102 | a read from the chain takes the bytes of the full reader before those of the connection |
| ConnCheckers.ConnChecker.Peek | internal/netutil/connchecker.go:86-90 | reading ahead keeps the order of all bytes and ends with a full buffer or an error |
| ConnCheckers.ConnChecker.Check | internal/netutil/connchecker.go:74-119 | a check returns no byte, loses none and restores the deadline; it ends the checks exactly for an error other than a deadline, which is then the cause, or for a buffer of 32 KiB that is full; a full buffer is doubled exactly when it has been full for longer than the threshold |
| ConnCheckers.ConnChecker.Read | internal/netutil/connchecker.go:125-135 | what is in the buffer is returned first, then a pending error, then what was read ahead; all that was returned is a beginning of the stream; errors other than deadlines cancel |
| Managers.StepKeeps | service.go:255-363 | every step of the manager and of the jobs keeps the invariant of the protocol |
| Managers.AfterLoad | service.go:255-309 | after a load every managed job is in the configuration, dropped jobs have ended, and each job has ended or has handled its options, then Loaded, has taken the closing event and listens on the address of the options it accepted last |
| Managers.ListensAfterLoad | service/tcptun/tcptun.go:107-133 | in every run in which a job neither fails nor ends by itself, after a load that has options for it it listens on their address |
| Managers.ListensAgain | service.go:332-345 | the same for a job that had ended before its turn in some load, if it does not do so after it |
| Managers.ConfiguredRuns | service.go:332-341 | at its turn a job that does not run is started, and one that runs goes on as it is |
| Managers.ServerKept | service/tcptun/tcptun.go:122-126 | options with the same address leave the server of a job as it is, and others close it |
| Managers.JobsBegin | service.go:311-342 | jobs begin only for entries with a service, and with options that could be read if it has any |
| Managers.AfterStop | service.go:351-363 | after stopping no job runs |
| Managers.BadConfigChangesNothing | service.go:269-272 | a configuration that does not decode can be put anywhere in a run without changing the state that the run ends in |
| Managers.ListensWhereTold | service/tcptun/tcptun.go:107-133 | at any time a listening job listens on the address of the options it accepted last |
| Managers.NextNearer | service.go:284-306 | whenever a load or a stop is under way the next step of the manager, or of the job it waits for, is possible and brings its end nearer |
| Managers.Completes | service.go:255-363 | from every state of every run the load or the stop under way can be completed, and then just its configuration is loaded |
| DnsCaches.KeptIsProjection | service/tcptun/dnstun/dnstun.go:1116-1127 | times to live are brought within the rounded-up bounds, of which the maximum wins, those within them stay, and a second time changes nothing |
| DnsCaches.KeptAscends | service/tcptun/dnstun/dnstun.go:1116-1127 | clamping never reverses the order of two times to live |
| DnsCaches.KeepAll | service/tcptun/dnstun/dnstun.go:1107-1147 | the loop clamps every record in place and finds the least result |
| DnsCaches.WithoutV6Has | service/tcptun/dnstun/dnstun.go:1149-1154 | just the IPv6 addresses of the answer section are left out |
| DnsCaches.WithoutV6InOrder | service/tcptun/dnstun/dnstun.go:1149-1154 | the records that are left keep their order |
| DnsCaches.Receive | service/tcptun/dnstun/dnstun.go:1101-1162 | the answer holds the records with the times to live that are kept, without the excluded ones, and its deadline is that of the record that lives shortest, or none without one |
| DnsCaches.Age | service/tcptun/dnstun/dnstun.go:474-487 | every record loses the elapsed seconds down to 0, and nothing else of it changes |
| DnsCaches.AgesOnly | service/tcptun/dnstun/dnstun.go:474-487 | records without a time to live stay, the others lose the elapsed seconds or reach 0 |
| DnsCaches.DnsCache.Store | service/tcptun/dnstun/dnstun.go:1164-1166 | only answers with a deadline are stored, and the cache keeps to its bounds |
| DnsCaches.DnsCache.Lookup | service/tcptun/dnstun/dnstun.go:425-428 | an answer is found if and only if it is stored and its deadline is still to come |
| DnsCaches.DnsCache.Serve | service/tcptun/dnstun/dnstun.go:425-497 | a served record has its stored time to live less the whole seconds since the answer came, at least 1 if it is sent in time, and the stored answer is unchanged |
| DnsCaches.ZeroIsNeverServed | service/tcptun/dnstun/dnstun.go:425-428 | an answer with a time to live of zero is never found |
| DnsCaches.ServedTooLate | service/tcptun/dnstun/dnstun.go:474-487 | a second is left to a record if and only if it is aged before the deadline it sets |
| DnsCaches.Config.Load | service/tcptun/dnstun/dnstun.go:646-654 | the cache in use keeps to the bounds in force; it is taken over exactly if nothing it depends on has changed, and a new one is empty |

## Left out

- GlobExcess.AddsNothingIff: does not cover globs in which `**` is followed, in the order of comparison and before the last stars, by two or more tokens that, stars aside, all take ':'; for these only AcceptsMeaning holds, in one direction.
- GlobMeaning.MissedExactly: like the other comparisons with the meaning, it is for patterns without a zero byte outside groups, which is the mark of an edge; bytes 1 to 4 act as the marks they are.
- MatchSets.MatchSet.Add: requires that no group has a range that ends at the last byte, because the scanner does not come back from it, and that atoms stay below 0xD800, because larger ones are not stored faithfully. Sharing of `atomsBuffer` between calls is not modelled.
- MatchSets.MatchSet.Match: returns the reported data in order instead of calling a function; `MatchAll` is this sequence.
- Utf8.DecodeEncodeRune: models the library's encoding by section 3 of RFC 3629.
- AddrRanges.AddrRangeSet.AddRange: lists are values, so the sharing of a slice's memory is not modelled; addresses with zones are not either.
- Prefixes.ParsePrefix: takes the result of the library's parser, an address and a length, or none.
- Lines.ScanLines: lines have no length limit.
- AllowLists.AllowListParser.ParseLines: the reading of prefixes and the joining of paths are parameters; instead of forbidding include cycles, a bound on how deep files are open inside one another makes parsing fail there.
- AllowLists.AllowList.Allow: the host of a query that is an address is its usual text, as the lookup makes it; an address with a zone is left out.
- AllowLists.SameChecksumSameRules: the hash function is taken as injective, so a checksum is what is fed to it.
- Routes.Routing.LoadEvent: routes have names already, proxies are numbers, the tables of redirects and rewritten hosts are left out, and so is the server that it stops.
- Routes.Routing.GetOpts: splitting a host from its port and parsing addresses is a parameter.
- Failover.Queue.Pick: the random number is a parameter, taken modulo the number of ties.
- Race.BytesInEveryRun: the end of the relay is possible at any time, and closing the connections and logging are not modelled.
- Race.DeadlineAfterHandOver: is about the deadlines that conn.go sets; the relay also sets deadlines on the same connections when it is idle or a copy fails.
- Relays.ExpiresWhenIdle: when a message waits in the channel only the time since the last one received is known; the clock is an integer that moves between steps; the copied bytes are part of the race model.
- ConnCheckers.ConnChecker.Check: one tick with the reader in hand is one step, because the reader and the deadline pass through channels of one slot; the ticker itself is left out.
- Managers.AfterLoad: jobs are those of the tcptun service; that ports pass from one job to another is not claimed, since a job may be told to start while another still handles its options.
- DnsCaches.KeptIsProjection: requires bounds whose seconds fit in 32 bits, since the conversion of larger ones is not defined, and rounds exactly where the source uses floating point.
- DnsCaches.DnsCache.Serve: the conversion of elapsed seconds to 32 bits is modelled for less than 2^32 seconds; the clock does not run backwards.
- The route cache of dnstun is not modelled.
- Liveness under fair scheduling: what is proved is that races, loads and stops can be completed from every state, and by which steps.
- Sockets, TLS, HTTP, SOCKS, DNS messages, YAML, zip, file watching, logging and the proxy dialers.
- service/socks/balancer/roundrobin/roundrobin.go, service/socks/balancer/random/random.go and service/socks/socks.go: easier, or the same as what is modelled.
