# BGP best-path calculator: a Dafny model

The calculator reads the text a router prints for one prefix's BGP table entry, with one block per candidate path. It turns each block into a route record. It then runs a simplified best-path decision process over the records. That process is the one of section 9.1.2.2 of RFC 4271, preceded by the proprietary Weight step.

This project models the two halves of that core and proves what each promises.

**The decision process** (`engine.dfy`, `engine_properties.dfy`, `pools.dfy`, `dotted.dfy`).
- Nine elimination steps run in a fixed order: Weight, Local Preference, Locally Originated, AS Path Length, Origin Code, MED, eBGP over iBGP, IGP Metric, Router ID.
- Each step keeps the candidates its filter selects.
- It appends one trace entry to the result: the step's name, the identifiers it kept, the identifiers it eliminated, and a reason.
  - The entry reads `Tie` when no candidate was eliminated.
  - Otherwise the reason compares the first winner with the first loser.
- A step that finds at most one candidate adds nothing.
- The trace starts with a next-hop step that passes every candidate.
- The winner is the first remaining candidate.

The model states each step's filter as a function (`Engine.StepFilter`), the process as functions over the steps (`Engine.Survivors`, `Engine.Trace`, `Engine.Analyze`), and `compareRoutes` and its `recordStep` helper as methods proved equal to those functions. Against an independent reference definition — "step `s` strictly prefers `a` to `b`" (`StepBetter`), extended lexicographically over the step order (`Better`) — it proves:
- each step keeps exactly the candidates no other candidate beats at that step;
- the winner is a candidate no other beats;
- among the candidates nobody beats, the winner is the earliest;
- the winner is determined by that characterisation;
- the trace splits the identifiers in play at every step, in order, and ends with the winner's identifier alone;
- every eliminating entry's reason is formatted from its first winner and its first loser; outside Router ID the step strictly prefers that winner to that loser, and at Router ID the loser's identifier does not sort before the winner's. The two identifiers may be equal, for two paths from one router: the reason then reads `Lower Router ID (x < x)`.

**The route-dump parser** (`line_shapes.dfy`, `line_patterns.dfy`, `parsers.dfy`, `parser_properties.dfy`, `parser_sources.dfy`, `text.dfy`).
- Boundary lines start records: an explicit `Path #n:` header always starts one; a next-hop line (`<hop> [(…)] from <peer> (<router-id>)`) starts one unless the open record still lacks a next hop.
- Every line of an open record is buffered.
- The next-hop line sets the next hop, peer address and router identifier. The line just before it, when it is a bare run of AS numbers, supplies the AS path.
- An `Origin` line sets the origin code, MED, local preference and weight.
- Finishing a record applies the documented defaults and reads the iBGP and best-path flags from the record's raw text.
- Every record gets the dump's one prefix.

The model writes each regular expression as a scan over a line's characters (`LineShapes`). `LinePatterns` writes each expression's language as a split of the text into the expression's parts. It proves that each scan accepts exactly that language and captures what the expression captures. Where the expression searches, the proofs show it settles on the leftmost match. For the greedy `\(.*\)` of the next-hop line, they show it settles on the rightmost closing parenthesis after which the rest matches.

The model writes the parser's loop as a method whose state after every line equals a function of the lines read so far (`Parsers.Scan`). It proves that every record of a parse:
- sits at its own position;
- carries the dump's prefix;
- takes its next hop, peer, router identifier, origin, MED, local preference, weight and flags from its own raw text: each holds the last value the record's lines supply, or the documented default;
- takes its AS path from the dump line right before its next-hop line, when that line, trimmed, is digits and white space not starting with `Path`, and otherwise has none (`ParserSources.ParsedSources`). That line need not belong to the record.

It proves further that every path header yields a record of its own, that no record comes without a boundary line, and how each kind of line moves the parser's state.

Identifiers are natural numbers; the parser gives each record its position as identifier. The decision process is specified for lists without repeated identifiers, which `ParserProperties.ParsedIdsDistinct` proves every parse satisfies.

Where the code and its written description disagree, the model follows the code:
- The description says the inline `(metric N)` of a next-hop line sets the IGP metric. The code never assigns `igpMetric`, so every parsed record has IGP metric 0 (`ParserProperties.FinalizeFlags`).
- The `StepResult` type in `types.ts` declares a `candidates` list. The engine builds entries with `winnerIds` and `loserIds` instead, and the model follows the engine.

## Model

| member | source | states |
|---|---|---|
| Engine.CompareRoutes | src/lib/bgp/engine.ts:3-187 | the result is `Analyze(routes)`: the error result for an empty list, otherwise the next-hop entry, the nine steps' trace and the first survivor; the caller's list is not changed |
| Engine.RecordStep | src/lib/bgp/engine.ts:25-58 | the candidates become what `Eliminate` leaves, and the trace gains exactly the step's entry (none for at most one candidate) |
| Engine.Analyze | src/lib/bgp/engine.ts:3-6 | an empty list gives no winner, no steps and the error `No routes provided`; an error is reported exactly for an empty list, a winner exactly for a non-empty one, and the winner is one of the candidates |
| Engine.OriginScore | src/lib/bgp/engine.ts:107 | the rank is 0 exactly for the text `IGP`, 1 exactly for `EGP`, and 2 for every other text |
| Engine.StepFilter | src/lib/bgp/engine.ts:62-179 | a step keeps a non-empty sub-list of a non-empty pool, keeps identifiers distinct, and the Router ID step keeps exactly one candidate |
| Engine.KeepByValue | src/lib/bgp/engine.ts:62-68 | filtering on a value some member has keeps a non-empty, order-preserving sub-list |
| Engine.KeepSome | src/lib/bgp/engine.ts:85-93 | filtering on a test some member passes keeps a non-empty, order-preserving sub-list |
| Engine.LowestRouterId | src/lib/bgp/engine.ts:171-172 | the candidate the stable sort brings to the front: no candidate's router identifier sorts before its own, and its own sorts strictly before that of every earlier candidate |
| Engine.FilterIsKeep | src/lib/bgp/engine.ts:62-179 | every step's filter is an order-preserving filter of the pool by a per-pool test |
| Engine.LocalFilterIsKeep | src/lib/bgp/engine.ts:85-93 | the Locally Originated step keeps the whole pool when no path is local, else filters on the local test |
| Engine.EbgpFilterIsKeep | src/lib/bgp/engine.ts:141-149 | the eBGP step keeps the whole pool when it is all iBGP or all eBGP, else filters on the eBGP test |
| Engine.StepPartition | src/lib/bgp/engine.ts:44-45 | the winners and the losers of a step, each in pool order, merge to the pool, and the losers number the pool less the winners |
| Engine.Eliminate | src/lib/bgp/engine.ts:26-47 | a step never grows the pool, never empties it, only keeps its members and keeps identifiers distinct |
| Engine.EliminateIsFilter | src/lib/bgp/engine.ts:32-47 | on more than one candidate, every step but Router ID leaves exactly what its filter keeps, the tie case included |
| Engine.StepEntry | src/lib/bgp/engine.ts:26 | a step adds no entry exactly when at most one candidate is left |
| Engine.Survivors | src/lib/bgp/engine.ts:60-179 | the steps in order never grow or empty the pool, only keep its members and keep identifiers distinct |
| Engine.Trace | src/lib/bgp/engine.ts:60-179 | each step adds at most one trace entry |
| Pools.Keep | src/lib/bgp/engine.ts:65 | a filter keeps exactly the members that pass, never more of them than the pool holds, and keeps identifiers distinct |
| Pools.Ids | src/lib/bgp/engine.ts:21 | the identifier list has one entry per candidate, in order |
| Pools.MaxOf | src/lib/bgp/engine.ts:64 | the largest key: no member's key exceeds it and some member has it |
| Pools.MinOf | src/lib/bgp/engine.ts:99 | the smallest key: no member's key is below it and some member has it |
| DottedOrder.DottedLessOrder | src/lib/bgp/engine.ts:171 | the numeric comparison of router identifiers is irreflexive and transitive, and two identifiers are incomparable exactly when their numeric segments agree |
| EngineProperties.StepOrder | src/lib/bgp/engine.ts:60-179 | each step's strict preference is irreflexive and transitive, and a preferred pair is separated by any third candidate (a strict weak order) |
| EngineProperties.BetterOrder | src/lib/bgp/engine.ts:60-179 | preference by the steps in order (the first step that separates two candidates decides) is irreflexive and transitive |
| EngineProperties.KeepMax | src/lib/bgp/engine.ts:62-78 | keeping the maximal key keeps exactly the members whose key no member exceeds |
| EngineProperties.KeepMin | src/lib/bgp/engine.ts:97-159 | keeping the minimal key keeps exactly the members whose key no member undercuts |
| EngineProperties.StepFilterUnbeaten | src/lib/bgp/engine.ts:62-159 | every step but Router ID keeps a pool member exactly when no member is strictly preferred to it by that step |
| EngineProperties.RouterIdFilter | src/lib/bgp/engine.ts:163-179 | the Router ID step keeps a single candidate whose identifier no other sorts before, and which sorts strictly before every earlier candidate |
| EngineProperties.EbgpPreferred | src/lib/bgp/engine.ts:141-149 | in a pool mixing eBGP and iBGP paths the step keeps exactly the eBGP ones |
| EngineProperties.LocalPreferred | src/lib/bgp/engine.ts:85-93 | when some path has next hop `0.0.0.0` the step keeps exactly those paths |
| EngineProperties.EliminateTies | src/lib/bgp/engine.ts:29-47 | no candidate a step lets through is strictly preferred by that step to another it lets through |
| EngineProperties.EliminateBeats | src/lib/bgp/engine.ts:44-47 | an eliminated candidate is never preferred to a survivor, and apart from Router ID every survivor is strictly preferred to it |
| EngineProperties.SurvivorsOptimal | src/lib/bgp/engine.ts:60-179 | with the tie-break last, no candidate of the pool is preferred by the steps in order to any survivor |
| EngineProperties.SurvivorFirst | src/lib/bgp/engine.ts:171-172 | the first survivor is preferred by the steps in order to every candidate listed before it |
| EngineProperties.SurvivorsSingle | src/lib/bgp/engine.ts:181-182 | once the Router ID step has run exactly one candidate is left |
| EngineProperties.SurvivorsUnchanged | src/lib/bgp/engine.ts:26 | a single candidate passes every step unchanged |
| EngineProperties.ReasonNotTie | src/lib/bgp/engine.ts:67-178 | no elimination reason reads `Tie`, so a tie entry cannot be mistaken for an elimination |
| EngineProperties.StepEntryFacts | src/lib/bgp/engine.ts:25-58 | a step's entry carries its name and the identifiers of the candidates it leaves; its winners and losers merge, in order, to the identifiers in play; it reads `Tie` exactly when it lists no loser, which is exactly when nobody was eliminated |
| EngineProperties.ReasonJustified | src/lib/bgp/engine.ts:43-57 | an eliminating entry names a survivor first and an eliminated candidate first, its reason is formatted from those two, and the survivor is strictly preferred by the step (for Router ID, the loser does not sort before it) |
| EngineProperties.TraceExplains | src/lib/bgp/engine.ts:25-58 | each entry splits the identifiers the previous one kept, and the last entry keeps the survivors' identifiers |
| EngineProperties.FullTraceExplains | src/lib/bgp/engine.ts:12-22 | with the next-hop entry in front, the trace chains from all identifiers to the single survivor's identifier |
| EngineProperties.AnalyzeTrace | src/lib/bgp/engine.ts:12-187 | the trace starts with the next-hop entry passing every candidate and chains down to the winner's identifier alone |
| EngineProperties.AnalyzeWinner | src/lib/bgp/engine.ts:184-187 | for a non-empty list there is no error; the winner is a candidate no other is preferred to, and it is preferred to every candidate listed before it |
| EngineProperties.FirstSurvivorBest | src/lib/bgp/engine.ts:60-187 | with the tie-break last, the first survivor is unbeaten and preferred to every earlier candidate, for any step order |
| EngineProperties.WinnerCharacterized | src/lib/bgp/engine.ts:60-187 | a candidate that no other beats and that beats every earlier candidate is the winner |
| EngineProperties.FirstSurvivorUnique | src/lib/bgp/engine.ts:60-187 | for any step order with the tie-break last, such a candidate is the first survivor |
| EngineProperties.HighestWeightWins | src/lib/bgp/engine.ts:62-68 | the winner carries the highest weight among the candidates |
| EngineProperties.FirstSurvivorHighestWeight | src/lib/bgp/engine.ts:62-68 | when Weight is the first step, the first survivor has the highest weight |
| Text.Split | src/lib/bgp/parsers.ts:20 | a split yields at least one piece and no piece holds the separator |
| Text.JoinSplit | src/lib/bgp/parsers.ts:20-28 | joining the pieces of a split restores the text |
| Text.SplitJoin | src/lib/bgp/parsers.ts:28 | splitting a record's raw text at newlines gives back its buffered lines |
| Text.TrimStart | src/lib/bgp/parsers.ts:98 | removes exactly the leading run of white space |
| Text.TrimEnd | src/lib/bgp/parsers.ts:98 | removes exactly the trailing run of white space |
| Text.NatToString | src/lib/bgp/engine.ts:67 | the decimal text of a number is a non-empty run of digits that starts with `0` exactly for the number 0, so it has no leading zero |
| Text.DigitsRoundTrip | src/lib/bgp/parsers.ts:110 | reading back the decimal text of a number gives the number |
| BgpTypes.ToOrigin | src/lib/bgp/parsers.ts:107 | the stored origin shows the captured word verbatim |
| LineShapes.HeaderScanSound | src/lib/bgp/parsers.ts:62 | every line the header scan accepts is in the language of `^\s*Path\s+#\d+:` (case-insensitive) |
| LineShapes.HeaderScanComplete | src/lib/bgp/parsers.ts:62 | every line in that language is accepted by the scan |
| LineShapes.HeaderNotFromLine | src/lib/bgp/parsers.ts:62-65 | no path header is also a next-hop line |
| LineShapes.NumberFrom | src/lib/bgp/parsers.ts:109-116 | a number is found exactly when some position of the line matches `word\s+\d+`, and it is the number read there |
| LineShapes.AsPathCandidate | src/lib/bgp/parsers.ts:96-101 | a path is supplied exactly when the previous line exists, is non-empty, and trimmed is non-empty, does not start with `Path` and is digits and white space; the path is that trimmed line |
| LineShapes.GlobalPrefix | src/lib/bgp/parsers.ts:55-56 | the prefix is non-empty; it is `0.0.0.0/0` when no `entry for` capture exists, and otherwise a capture found in the dump |
| LinePatterns.FromTailSound | src/lib/bgp/parsers.ts:65 | a tail the scan accepts is in the language of `\s+from\s+([0-9.]+)\s+\(([0-9.]+)\)`, and the scan's captures are that split's two groups |
| LinePatterns.FromTailComplete | src/lib/bgp/parsers.ts:65 | every text in that language is accepted, with its two groups as captures |
| LinePatterns.LastCloseSound | src/lib/bgp/parsers.ts:65 | the close the backtracking of `.*\)` returns is a `)` after which the tail matches |
| LinePatterns.LastCloseRightmost | src/lib/bgp/parsers.ts:65 | every close in the searched range after which the tail matches lies at or before the one returned, so the returned one is the rightmost |
| LinePatterns.GroupCloseSound | src/lib/bgp/parsers.ts:65 | a close the optional group returns ends a text of the language `\s+\(.*\)` after the next hop, and the tail matches after it |
| LinePatterns.GroupCloseComplete | src/lib/bgp/parsers.ts:65 | every group of that language after which the tail matches is found, and the returned close is at or after its close |
| LinePatterns.MatchFromLineSound | src/lib/bgp/parsers.ts:65 | a matched next-hop line is in the language of the whole expression, with next hop, peer and router identifier as that split's captures |
| LinePatterns.MatchFromLineComplete | src/lib/bgp/parsers.ts:65 | every line in that language is matched, with the next hop its split names |
| LinePatterns.MatchFromLineGreedy | src/lib/bgp/parsers.ts:65 | when the optional group can close, peer and router identifier are read after the rightmost close that lets the tail match |
| LinePatterns.OriginAtSound | src/lib/bgp/parsers.ts:106 | a code read at a position is a match of `Origin\s+` and then `IGP`, `EGP` or `Incomplete` there, without regard to case, captured as the line spells it |
| LinePatterns.OriginAtComplete | src/lib/bgp/parsers.ts:106 | every match of that expression at a position is read, with its capture |
| LinePatterns.OriginFromSound | src/lib/bgp/parsers.ts:106 | the origin search returns the capture of a match at some position |
| LinePatterns.OriginFromFinds | src/lib/bgp/parsers.ts:106 | the origin search finds a code whenever the expression matches at some position |
| LinePatterns.OriginFromLeftmost | src/lib/bgp/parsers.ts:106 | the origin search returns the capture of the leftmost match |
| LinePatterns.NumberAtSound | src/lib/bgp/parsers.ts:109-116 | a number read at a position is the value of the greedy digit run of a match of `word\s+(\d+)` there |
| LinePatterns.NumberAtComplete | src/lib/bgp/parsers.ts:109-116 | every such match is read, as the value `parseInt` gives its digit run |
| LinePatterns.NumberFromLeftmost | src/lib/bgp/parsers.ts:109-116 | the number search returns the value read at the leftmost match |
| LinePatterns.PrefixAtSound | src/lib/bgp/parsers.ts:55 | a prefix read at a position is the greedy capture of a match of `entry for ([0-9./]+)` there |
| LinePatterns.PrefixAtComplete | src/lib/bgp/parsers.ts:55 | every such match is read, with its capture |
| LinePatterns.PrefixFromLeftmost | src/lib/bgp/parsers.ts:55 | the prefix search returns the capture of the leftmost match |
| LinePatterns.GlobalPrefixFirst | src/lib/bgp/parsers.ts:55-56 | the dump's prefix is the capture of the first `entry for` match |
| Parsers.DetectVendor | src/lib/bgp/parsers.ts:3-8 | the Cisco marker decides for Cisco; Juniper exactly when that marker is absent and both Juniper markers are present; Fortigate exactly when neither of those and the Fortigate marker is present; never Auto or Arista |
| Parsers.Parse | src/lib/bgp/parsers.ts:10-16 | every dialect, named or detected, is read by the same scan |
| Parsers.ParseCiscoDetailed | src/lib/bgp/parsers.ts:18-124 | the records returned are those of the line-by-line scan specification, finished and stamped with the dump's prefix |
| Parsers.PushRoute | src/lib/bgp/parsers.ts:25-53 | the records gain the finished open record, at the next position, or stay as they are when none is open |
| Parsers.ReadLine | src/lib/bgp/parsers.ts:87-117 | reading a line inside a record gives the record the fields the line's shapes supply |
| Parsers.ReadOriginLine | src/lib/bgp/parsers.ts:105-117 | an `Origin` line sets origin, MED, local preference and weight where each pattern matches, and nothing else |
| Parsers.WithPrefix | src/lib/bgp/parsers.ts:123 | the records keep their number and order and change only their prefix |
| ParserProperties.FinalizeReadsRaw | src/lib/bgp/parsers.ts:25-50 | a finished record agrees with its raw text: it starts with a boundary line, and its fields are what the text says, with the defaults otherwise |
| ParserProperties.FinalizeOriginFields | src/lib/bgp/parsers.ts:34-39 | MED, local preference, weight and origin are the last values the record's `Origin` lines supply, else 0, 100, 0 and `Incomplete` |
| ParserProperties.FinalizeFromFields | src/lib/bgp/parsers.ts:33-43 | next hop, peer and router identifier are the last next-hop line's captures, else `0.0.0.0`, empty and `0.0.0.0` |
| ParserProperties.FinalizeFlags | src/lib/bgp/parsers.ts:40-50 | iBGP exactly when the text says `internal` and not `external`; best exactly when the text marks it best; IGP metric 0; valid |
| ParserProperties.FinalizeAsPath | src/lib/bgp/parsers.ts:31-38 | the record sits at its position, and its AS path length counts the numeric pieces of its path, 0 for no path |
| ParserProperties.ClosedOk | src/lib/bgp/parsers.ts:121 | finishing the last open record keeps every record in agreement with its position and raw text |
| ParserProperties.StampedOk | src/lib/bgp/parsers.ts:123 | stamping the prefix keeps every record in agreement with its position and raw text |
| ParserProperties.ScanLineOk | src/lib/bgp/parsers.ts:58-118 | one line keeps every finished record, and the open record's fields, in agreement with their lines |
| ParserProperties.ScanOk | src/lib/bgp/parsers.ts:58-119 | the agreement holds after every prefix of the dump's lines |
| ParserProperties.ParsedRecords | src/lib/bgp/parsers.ts:18-124 | every record of a parse sits at its position and carries the dump's prefix; every field but the AS path is what its raw text says, else the default; its AS path is empty or trimmed digits and white space, and its AS path length counts the path's numbers |
| ParserProperties.ParsedIdsDistinct | src/lib/bgp/parsers.ts:30-31 | no parse repeats an identifier |
| ParserProperties.ScanLineCount | src/lib/bgp/parsers.ts:67-88 | a header opens exactly one record, only a boundary line opens one, and a record is open exactly when one was open or the line is a boundary |
| ParserProperties.CountStep | src/lib/bgp/parsers.ts:58-119 | one more line keeps the record count between the header count and the boundary count |
| ParserProperties.ScanCount | src/lib/bgp/parsers.ts:58-119 | after any prefix of the lines, records seen lie between headers seen and boundaries seen, and a record is open exactly when a boundary has been seen |
| ParserProperties.RecordCount | src/lib/bgp/parsers.ts:58-121 | there are at least as many records as path headers and at most as many as boundary lines, and there are none exactly when there is no boundary line |
| ParserProperties.ScanBeforeBoundary | src/lib/bgp/parsers.ts:87 | lines before the first boundary are neither buffered nor read |
| ParserProperties.HeaderOpensRecord | src/lib/bgp/parsers.ts:67-71 | a path header finishes the open record, if any, and opens a new one buffering the header |
| ParserProperties.OpenAtFromLine | src/lib/bgp/parsers.ts:72-85 | at a next-hop line the open record is kept only when it still lacks a next hop, and otherwise a fresh one follows it |
| ParserProperties.FromLineOpensRecord | src/lib/bgp/parsers.ts:72-93 | a next-hop line opens a new record when none is open or the open one has a next hop, and otherwise joins the open one; either way the record takes its next hop |
| ParserProperties.ScanInsideRecord | src/lib/bgp/parsers.ts:87-118 | inside a record each line is buffered and read into the record the boundary rules leave open |
| ParserProperties.OtherLineContinues | src/lib/bgp/parsers.ts:87-118 | any other line is skipped outside a record, and is buffered inside one without finishing it |
| ParserProperties.AbsorbFromLine | src/lib/bgp/parsers.ts:90-102 | reading a next-hop line sets its next hop, and the AS path the previous line offers or else the one kept so far |
| ParserProperties.OriginLineKeepsFrom | src/lib/bgp/parsers.ts:105-117 | an `Origin` line changes neither the next hop nor the AS path |
| ParserProperties.AsPathBacktrack | src/lib/bgp/parsers.ts:95-102 | after a next-hop line the AS path is the previous line's when that line is a bare path; otherwise it is the open record's, or none when the line opened a fresh record |
| ParserProperties.CountNumericAppend | src/lib/bgp/parsers.ts:38 | counting the numeric pieces of two lists joined end to end adds their counts |
| ParserProperties.CountNumericIndices | src/lib/bgp/parsers.ts:38 | the count is the number of positions whose piece is non-empty and numeric |
| ParserProperties.AsPathLengthFilters | src/lib/bgp/parsers.ts:38 | the AS path length is the number of pieces of the path split at spaces that the filter `x => x && !isNaN(Number(x))` keeps |
| ParserProperties.CountDigitPieces | src/lib/bgp/parsers.ts:38 | pieces made only of digits all count as AS numbers |
| ParserProperties.AsPathLengthCountsNumbers | src/lib/bgp/parsers.ts:38 | the length of a path built from AS numbers separated by single spaces is the number of AS numbers |
| ParserSources.FinalizeSourced | src/lib/bgp/parsers.ts:25-43 | finishing a record keeps the source of its next hop, peer, router identifier and AS path, with the defaults when it never read a next-hop line |
| ParserSources.AbsorbTakesSource | src/lib/bgp/parsers.ts:90-102 | a next-hop line read into a record without next-hop fields sets them to its captures, and the AS path to what the line before it offers or none |
| ParserSources.AbsorbKeepsSource | src/lib/bgp/parsers.ts:87-117 | any other line leaves next hop, peer, router identifier and AS path alone |
| ParserSources.OpenAtFromLineUnsourced | src/lib/bgp/parsers.ts:72-85 | at a next-hop line the record left open has read no next-hop line yet |
| ParserSources.SourcedStep | src/lib/bgp/parsers.ts:58-118 | one more line keeps every record's next-hop fields and AS path tied to a next-hop line read so far and the dump line before it |
| ParserSources.ScanSourced | src/lib/bgp/parsers.ts:58-119 | that tie holds after every prefix of the dump's lines |
| ParserSources.ParsedSources | src/lib/bgp/parsers.ts:18-124 | every parsed record takes next hop, peer and router identifier from one next-hop line of the dump, and its AS path from the dump line right before it when that line is a bare path, else none; a record without a next-hop line has the defaults |

## Left out

- Route identifiers: the source draws a random text identifier for each record. The model gives each record its position as identifier, which makes identifiers unique within one parse.
- Engine.CompareRoutes: requires that no two candidates share an identifier. With repeated identifiers the losers found by identifier can be empty, and the reason then reads a field of a missing route.
- Engine.CompareRoutes: the `vendor` parameter is unused by the source and is not modelled.
- Next-hop reachability: this step is a stub in the source that passes every candidate; the model keeps it as such.
- Same-AS MED rule: comparing MED only between paths from the same neighbouring AS is discussed in the source's comments only. The model, like the code, always compares MED.
- Engine.LowestRouterId: the Router ID step's in-place sort of the working copy is modelled by its only observable effect, which is which candidate sorts first. `localeCompare` with numeric collation is modelled as comparing the numeric values of the dot-separated digit runs. Its locale-specific secondary ordering of identifiers with equal numeric segments, such as `01.1` and `1.1`, is not modelled. Nor are identifiers with an empty segment: the model reads an empty segment as 0, so `1.0.5` sorts before `1..9`, where the collation may order `1..9` first.
- Number precision: `parseInt` and `Number` are modelled on natural numbers, with no floating-point rounding of very long digit runs.
- LineShapes.IsNumericToken: states `!isNaN(Number(x))` only for text of digits and white space, which is all an AS path stored by the parser can hold. Decimal points, exponents, signs and hexadecimal literals are not modelled.
- IGP metric: the parser never sets it, so every record carries 0. The expectation of 2000 at src/lib/bgp/user_repro_2.test.ts:57-60 is therefore not met, and the model does not claim it.
- Concrete sample dumps: the tests' sample inputs are not evaluated. The general lemmas above stand in for them, namely the count bounds, the field agreement and the winner characterisation.
- Parsers.Parse: both branches of the dialect dispatch call the same scan in the source, and the model keeps the dispatch as written.
- Ranking, the user interface and the page that hosts the calculator are not part of this model.
- LineShapes.LastClose: its own contract bounds the position it returns. That the position is a `)` after which the rest of the line matches is stated by `LinePatterns.LastCloseSound`, and that it is the rightmost such position by `LinePatterns.LastCloseRightmost`.
- Regular expressions are modelled on the characters the parser meets. `\s` is JavaScript's white-space set; case-insensitive matching folds ASCII letters only.
