# Verification of the Jana Sunani grievance pipeline

A Dafny model of the parts of the repository whose correctness no finite set of examples settles, with proofs that hold
for every input, every run and every reachable state. `dafny verify dfyconfig.toml` checks the whole project.

What is modelled, one module per component:

- **Journey of a grievance** (`Journey`, `Mart`): the SQL window queries as functions of a ticket's actions, sorted by
  date and id; phase bounds, clamped phase spans, arrivals, collapsed routes and waits. `Mart` is the office decode
  that feeds them, taken from `grievance_journey.sql`, so the assumptions about rungs, codes and roles are proved of
  it.
- **Gold audit** (`PiiGold`, `PiiDiff`, `PiiAudit`): the span checker as a class that accumulates a report, and the
  greedy diff of a draft against its corrected gold. Python iterates the set of removed spans in an order nobody
  chooses, so the diff is stated for every listing of that set.
- **Guards on committed files** (`DvcPointer`, `DvcGrammar`, `DvcMessage`, `PlanArchive`, `Identifier`): the closed DVC
  pointer parser as a line machine, its language as a grammar, the messages it refuses with, the local-header scan of
  damaged archives, and the digit-group pattern.
- **Benchmark harness** (`BenchStats`, `BenchPercentile`, `PdfFile`, `BenchPdf`, `BenchCoverage`, `BenchDigest`,
  `BenchRun`): the clustered variance, the interpolated percentile, the PDF writer with an independent reader, manifest
  coverage, the sample digest and what it identifies, and the measurement loop over files that may change between
  fingerprint and read.
- **Adjudication** (`Kappa`, `Adjudication`): Cohen's kappa, and the consensus and resolver stages.
- **District map** (`Rings`, `Clearance`, `DeckMap`): ray casting over closed rings, how far a point can move without
  changing sides, the interior anchor, and the placement of dots.
- **Sampling** (`Sampling`): the group-disjoint categorization sample.
- **Complaint store** (`Crud`, `Breaker`): bulk upsert against one-by-one upsert, and the request-tracking breaker.
- **Abstention threshold** (`Threshold`): a finite search against every real threshold.

`Orders`, `Collecting`, `Reals`, `Text`, `Utf8` and `Wrappers` hold what these share: sorting, comprehensions,
arithmetic, Python string operations, options and results.

Conventions. Methods carry the source's loops and are proved against functions; lemmas then state what those functions
mean. Exceptions are `Result` values. Floating-point numbers are exact reals. Hash digests, the PII pattern, white
space and case folding, the calendar, processor calls, file reads, database constraints and the sine and cosine of a
theme's angle are parameters: a result holds for all of them, or says which property of them it needs.

Where the code and what is said of it differ, the code is modelled and the difference proved:

- The draft side of the span diff is conserved exactly for gold without clashing spans
  (`PiiDiff.DraftSideHoldsExactlyWithoutClash`); the structural check implies that, but `diff` runs before its result
  is used (`scripts/verify_pii_gold.py:357-369`).
- The clustered error survives repeats only with two tickets or more; with a single ticket the fallback shrinks unless
  nothing is repeated or all values agree (`BenchStats.OneTicketShrinks`).
- The note at `janasunani/analytics/bottlenecks.py:803-810` names one cause for rows that do not tile; that is right
  only because `days_to_close` is null when resolution precedes creation (`Journey.ReversedClaimNeverTiles`).
- The breaker bounds failure counts only for thresholds of at least one (`Breaker.Tracker.FirstFailure`).
- The fingerprint check covers documents read from paths. Bytes already in memory
  (`scripts/benchmark_pipeline.py:1107`) are processed unchecked (`BenchRun.MemoryIsUnchecked`); a completed run
  processed fingerprinted bytes alone exactly when those were fingerprinted too (`BenchRun.ProcessedIffVouched`).
- Finer grids are tried for a polygon only while no earlier polygon has yielded a candidate
  (`scripts/build_deck_map.py:159-170`), so the anchor is nearest among the points of the grids tried
  (`DeckMap.AnchorIsNearest`), not among all grid points (`DeckMap.FinerGridHoldsNearer`).
- Dots are placed inside their districts and then printed to one decimal (`scripts/build_deck_map.py:250-253`). The
  printed point is inside too where no edge is within 0.05 (`DeckMap.PrintedStays`), and need not be nearer to one
  (`DeckMap.PrintedMayLeave`).
- The sample digest feeds names and digests to one hasher without separators (`scripts/benchmark_pipeline.py:599-601`).
  Over names of any bytes it tells a sample from all others exactly when it has at most one file, and that with a name
  no longer than a digest (`BenchDigest.ToldApartExactly`); of samples of files, whatever their digests, exactly when it
  has at most one, whose name does not split (`BenchDigest.AlwaysApartExactly`). Two or more staged files share their
  stream with a single staged file wherever their digests could be part of a name (`BenchDigest.FilesRunTogether`).

## Model

| member | source | states |
|---|---|---|
| `Journey.HistoryForgetsStorage` | janasunani/analytics/journey.py:103-117 | The window of a ticket, and so every table built on it, does not depend on the order rows are stored in, action ids being distinct |
| `Journey.RankedStepsAreAllOrNone` | janasunani/analytics/journey.py:126-128 | One unrecognised office removes a grievance from every journey table; otherwise no step is removed |
| `Journey.HandOffBy` | janasunani/analytics/journey.py:133-143 | Between two actions at different named offices, in either table order, there is a step that counts as a hand-off, dated no later than the later of the two |
| `Journey.BoundsExistIffRanked` | janasunani/analytics/journey.py:126-148 | A grievance has a row of phase bounds if and only if it has actions and every one stands on a known rung |
| `Journey.MarksRunForwards` | janasunani/analytics/journey.py:120-148 | For a ranked history: first action <= first hand-off <= returned up <= last action, absent marks read as last action, equal timestamps included; a return upward implies a hand-off; the deepest office was reached |
| `Journey.BoundsRunForwards` | janasunani/analytics/journey.py:185-189 | The calendar dates d1 to d4 run forwards, so only creation and resolution can reverse a phase bound |
| `Journey.ClampsIdle` | janasunani/analytics/journey.py:196-201 | On ordered d1..d4 every GREATEST reduces to a clamp against the creation date, the last also against resolution |
| `Journey.SpansTile` | janasunani/analytics/journey.py:179-209 | The five spans are nonnegative, sum to the latest of creation, last action and resolution minus creation, and review is zero unless the grievance was sent back up |
| `Journey.CleanIffLastActionNotAfterClosing` | janasunani/analytics/journey.py:211-214 | A phase row tiles its `days_to_close` if and only if the last action is not dated after the closing date |
| `Journey.ReversedClaimNeverTiles` | janasunani/analytics/sql/grievance_journey.sql:60-65 | What the gate on `days_to_close` is for: were resolution before creation, the spans could not add to the difference of the dates |
| `Journey.RoutesRepeatNothing` | janasunani/analytics/journey.py:244-280 | Neither `rungs` nor `roles` of a route has equal neighbours, roles being non-null |
| `Journey.LevelsTouched` | janasunani/analytics/journey.py:262-275 | Collapsing loses no level: the rungs of the route are exactly the rungs of the history |
| `Journey.CollapseRepeatsAcrossNulls` | janasunani/analytics/journey.py:259-273 | For every column: the SQL collapse leaves equal neighbours if and only if the column begins with two nulls or has a null between two equal entries |
| `Journey.RungRouteFromRoleRoute` | janasunani/analytics/journey.py:244-280 | Where a role fixes its rung, `rungs` is the collapse of the rung image of `roles` |
| `Journey.ArrivalsReadOffTheRoute` | janasunani/analytics/journey.py:226-241 | `arrivals` equals the number of times the deepest rung occurs in the collapsed route, is at least one, and two arrivals imply a non-null `returned_up` |
| `Journey.WaitsTile` | janasunani/analytics/journey.py:283-303 | No wait is negative; waits never exceed first to last action, and tile it when every office before the last is named |
| `Mart.OpeningFixesRung` | janasunani/analytics/sql/grievance_journey.sql:104-127 | The ladder does not overlap: for every code it ranks, the first two characters alone tell the rung |
| `Mart.RoleFixesRung` | janasunani/analytics/sql/grievance_journey.sql:104-178 | For every code the decode ranks, the role a route shows for it, named or fallen back on, determines its rung, which is 1 to 5 |
| `Mart.DecodeFitsJourney` | janasunani/analytics/sql/grievance_journey.sql:104-178 | Decoded histories satisfy what the journey results assume: the rung is a function of the code, ranked steps have a code, and route roles are non-null |
| `Mart.RoutesOfTable` | janasunani/analytics/journey.py:244-280 | Over any stored actions, decoded and windowed: both routes repeat nothing and the rung route is the collapse of the role route |
| `Mart.ArrivalsOfTable` | janasunani/analytics/journey.py:226-241 | Over any stored actions: arrivals are read off the collapsed route, at least one; a second one implies a return upward, and that a hand-off no later than it |
| `Mart.PhasesOfTable` | janasunani/analytics/bottlenecks.py:803-810 | Over any stored actions: spans are nonnegative and sum to the latest of creation, last action and resolution minus creation, and a row is outside `phases_clean` if and only if its last action is after its closing date, its spans then exceeding the total |
| `PiiGold.CheckSpan` | scripts/verify_pii_gold.py:177-208 | One span: errors, warnings and counters of the report after the checks, in order, each reported where it fails |
| `PiiGold.CheckOverlaps` | scripts/verify_pii_gold.py:210-216 | The adjacent-pair loop appends exactly the overlaps of neighbours in sorted order |
| `PiiGold.CheckRecord` | scripts/verify_pii_gold.py:164-216 | One record: the whole new report, including duplicate ids and empty texts |
| `PiiGold.Check` | scripts/verify_pii_gold.py:160-218 | The report over all records: findings, warnings, counts by entity, empty and unlabelled records |
| `PiiGold.NeighboursDecide` | scripts/verify_pii_gold.py:210-216 | For nonempty spans sorted by start, no two neighbours overlap if and only if no two spans overlap |
| `PiiGold.OrderedOverlapsDecide` | scripts/verify_pii_gold.py:210-216 | The neighbour test on the sorted spans decides pairwise disjointness of the spans in any order |
| `PiiGold.CheckPassesExactlyValidGold` | scripts/verify_pii_gold.py:160-218 | No error is reported if and only if ids are distinct and in every record each span is known, inside the text, not blank, and no two overlap |
| `PiiGold.EntityCountIsSafe` | scripts/verify_pii_gold.py:177-182 | Every span is counted once, and only known labels or the one bucket for unknown ones appear in the counter |
| `PiiDiff.GoldSpansAccountedFor` | scripts/verify_pii_gold.py:268-310 | For every iteration order of the removed set: gold spans = unchanged + re-bounded + relabelled + added |
| `PiiDiff.DraftSpansCovered` | scripts/verify_pii_gold.py:268-310 | For every order and every gold: draft spans never exceed unchanged + re-bounded + relabelled + removed |
| `PiiDiff.ValidRecordHasNoClash` | scripts/verify_pii_gold.py:210-216 | A record that passes the checker has no two gold spans with different labels that share bounds or overlap |
| `PiiDiff.DraftSpansAccountedFor` | scripts/verify_pii_gold.py:268-310 | For every order, when no two gold spans clash: draft spans = unchanged + re-bounded + relabelled + removed |
| `PiiDiff.ClashBreaksTheDraftSide` | scripts/verify_pii_gold.py:268-310 | If two gold spans clash there is a one-span draft on which, whatever the order, the draft side does not add up |
| `PiiDiff.DraftSideHoldsExactlyWithoutClash` | scripts/verify_pii_gold.py:268-310 | The draft-side law holds for all drafts and orders if and only if the gold has no clash |
| `PiiDiff.UnchangedIffEqual` | scripts/verify_pii_gold.py:227-310 | A record shows no change, and is not counted as touched, if and only if its two span sets are equal |
| `PiiAudit.GroupByLabel` | scripts/verify_pii_gold.py:277-279 | The dictionary by label, filled in arbitrary set order, holds for each label its removed spans in that order |
| `PiiAudit.LabelSearch` | scripts/verify_pii_gold.py:281-287 | Searching one label finds what searching all removed spans for that label would, and taking the match out keeps dictionary and listing in step |
| `PiiAudit.MatchRebounded` | scripts/verify_pii_gold.py:280-291 | The first matching loop computes the re-bounded count, the remaining new spans and the remaining removed spans |
| `PiiAudit.MatchRelabelled` | scripts/verify_pii_gold.py:293-299 | The second loop computes the relabelled count and what remains on both sides |
| `PiiAudit.DiffRecord` | scripts/verify_pii_gold.py:268-302 | The diff of one record is that of some iteration order |
| `PiiAudit.FileLaws` | scripts/verify_pii_gold.py:237-325 | The record laws summed over a file: gold side exactly, draft side as an inequality and exactly when no record clashes, zero change if and only if every shared record is equal |
| `PiiAudit.Diff` | scripts/verify_pii_gold.py:237-325 | The whole comparison: shared ids, mismatched texts, ids on one side, totals and counters by entity that match the totals |
| `PiiAudit.Gate` | scripts/verify_pii_gold.py:341-471 | The exit status is clean if and only if the gold is valid, ids and texts agree with the draft, and some record was changed; it raises exactly when the draft repeats an id |
| `DvcPointer.ReadLine` | scripts/check_no_terraform_plans.py:440-511 | One turn of the parser loop takes the step of the line machine: the same refusal or the same new variables |
| `DvcPointer.CheckItems` | scripts/check_no_terraform_plans.py:513-523 | The closing loop returns the first entry without path or checksum, or naming another file |
| `DvcPointer.DvcPointerProblem` | scripts/check_no_terraform_plans.py:411-524 | The parser, loops and early returns included, computes the verdict of the line machine |
| `DvcGrammar.ValueRulesDecide` | scripts/check_no_terraform_plans.py:373-408 | A value has no problem if and only if it is a digest of an allowed width, a hash name, a short path or an identifier-free count, as its key demands; the control-character rule adds nothing |
| `DvcGrammar.AcceptsExactlyTheLanguage` | scripts/check_no_terraform_plans.py:411-524 | A text is accepted if and only if its significant lines are a rendering of a valid pointer: one empty `outs:` header, then one or more entries with distinct allowlisted keys, typed values, a checksum and the path of the file beside it |
| `DvcGrammar.AcceptedIsRendered` | scripts/check_no_terraform_plans.py:437-511 | Whatever prefix the machine has accepted is a rendered pointer, and the items held are its entries |
| `DvcGrammar.ValidIsAccepted` | scripts/check_no_terraform_plans.py:411-524 | Every valid pointer, in any layout of its white space, is accepted and read back to its entries |
| `DvcGrammar.PrintThenParse` | scripts/check_no_terraform_plans.py:411-524 | Printing a valid pointer as text, then splitting and parsing it, gives its entries back |
| `DvcMessage.RefusalIsReadOff` | scripts/check_no_terraform_plans.py:373-408 | Whatever a refusal says is read off the file: its line number is that of the first line the parser cannot read, its key is the one that line carries, its length is that of the value there, and that value breaks the rule of its key |
| `DvcMessage.MessageShows` | scripts/check_no_terraform_plans.py:373-524 | The rendered message holds an identifier-shaped run of digits if and only if the line number or length in it has nine digits |
| `DvcMessage.RefusalShowsNoIdentifier` | scripts/check_no_terraform_plans.py:411-433 | No refusal of a file below a hundred million characters shows an identifier-shaped run, whatever the file holds; the caller reads none above 16 KB |
| `PlanArchive.Find` | scripts/check_no_terraform_plans.py:182-198 | The next header signature, or none |
| `PlanArchive.DamagedPlanMembers` | scripts/check_no_terraform_plans.py:163-199 | The signature loop reports, sorted and once each, exactly the plan members some header before the end declares in full |
| `PlanArchive.ScanFindsExactly` | scripts/check_no_terraform_plans.py:163-199 | A plan member is reported if and only if the bytes anywhere hold a local header with its full name (section 4.3.7 of PKWARE APPNOTE.TXT) |
| `PlanArchive.CarriesIsMonotone` | scripts/check_no_terraform_plans.py:163-199 | Bytes put before or after an archive never hide a member |
| `PlanArchive.TruncationKeepsWholeNames` | scripts/check_no_terraform_plans.py:163-199 | A truncation that leaves a header and its name leaves the member found |
| `PlanArchive.PlanMembersOfBlob` | scripts/check_no_terraform_plans.py:202-221 | The union of what the archive lists and what the scan finds, whether the archive opens or not |
| `Identifier.FlagsExactlyWindows` | scripts/check_no_terraform_plans.py:312-325 | The greedy pattern flags a name if and only if some letter-free stretch of it holds nine digits |
| `BenchStats.ClusterSums` | scripts/benchmark_pipeline.py:134-136 | The accumulation loop: the tickets in order of first appearance and each one's sum of deviations |
| `BenchStats.ClusteredVariance` | scripts/benchmark_pipeline.py:120-147 | The square of the standard error as computed, its branches for few values and one cluster included; the clamp against negatives never acts |
| `BenchStats.VarianceForgetsOrder` | scripts/benchmark_pipeline.py:120-147 | Permuting the measurements leaves the variance |
| `BenchStats.VarianceForgetsNames` | scripts/benchmark_pipeline.py:120-147 | Renaming tickets one to one leaves the variance |
| `BenchStats.DistinctTicketsGiveSimpleVariance` | scripts/benchmark_pipeline.py:120-147 | With one measurement per ticket the variance is s2 / n |
| `BenchStats.RepeatsDoNotShrink` | scripts/benchmark_pipeline.py:120-147 | With at least two tickets, repeating every measurement k times leaves the variance |
| `BenchStats.InterleavedRepeats` | scripts/benchmark_pipeline.py:120-147 | The same for repeats in any order |
| `BenchStats.OneTicketShrinks` | scripts/benchmark_pipeline.py:120-147 | With a single ticket, repeating leaves the variance if and only if nothing is repeated or all values agree, and otherwise makes it strictly smaller |
| `BenchPercentile.AtInCell` | scripts/benchmark_pipeline.py:150-165 | At every position of a cell, both ends included, the value is the blend of the two measurements around it |
| `BenchPercentile.PercentileInRange` | scripts/benchmark_pipeline.py:150-165 | A percentile lies between two of the measurements; q = 0 gives the minimum and q = 100 the maximum |
| `BenchPercentile.PercentileClimbs` | scripts/benchmark_pipeline.py:150-165 | A larger q never gives a smaller percentile, across every interpolation breakpoint |
| `BenchPercentile.PercentileForgetsOrder` | scripts/benchmark_pipeline.py:150-165 | The order of the measurements does not matter |
| `BenchPercentile.SortBelow` | scripts/benchmark_pipeline.py:150-165 | Raising measurements raises every order statistic |
| `BenchPercentile.PercentileNeverFalls` | scripts/benchmark_pipeline.py:150-165 | Raising measurements never lowers a percentile |
| `PdfFile.Write` | scripts/benchmark_pipeline.py:836-852 | The object loop, the offsets noted on the way and the table over them write the file in one pass |
| `PdfFile.Located` | scripts/benchmark_pipeline.py:836-852 | From the last lines of the file a reader reaches the table, the entry and the header of every object (ISO 32000-1, section 7.5.5), for any objects with ten-digit offsets |
| `BenchPdf.ThriceIsEscape` | scripts/benchmark_pipeline.py:820 | The three replaces in their order equal one escape per character |
| `BenchPdf.ReadOfEscape` | scripts/benchmark_pipeline.py:820 | Reading a literal string (ISO 32000-1, section 7.3.4.2) inverts the escape and stops at its closing parenthesis |
| `BenchPdf.SinglePageTextPdf` | scripts/benchmark_pipeline.py:816-852 | The builder returns the specified file, or the encoding error exactly when the content is not ASCII |
| `BenchPdf.FailsExactlyOnNonAscii` | scripts/benchmark_pipeline.py:816-823 | The content is ASCII if and only if every line is |
| `BenchPdf.TableIsExact` | scripts/benchmark_pipeline.py:836-852 | `startxref` names the byte of `xref`; the six entries take twenty bytes each; entry k names the byte where `k 0 obj` and that object start |
| `BenchPdf.ReadsBack` | scripts/benchmark_pipeline.py:816-852 | Every file built reads back, through `startxref`, the table, object 5, its `/Length` and its strings, as the lines of the text |
| `BenchCoverage.StagedSampleCoverage` | scripts/benchmark_pipeline.py:363-466 | Malformed rows and repeated names are refused exactly when there are any; otherwise both set differences are returned, sorted |
| `BenchCoverage.CompleteExactly` | scripts/benchmark_pipeline.py:1718-1738 | Nothing malformed, unkeyed, repeated, missing or unlisted if and only if the rows name the staged files, each once, with a ticket |
| `BenchCoverage.ManifestComplete` | scripts/benchmark_pipeline.py:1709-1738 | The completeness flag is set if and only if there is one row per staged file |
| `BenchRun.CompletesIffUnchanged` | scripts/benchmark_pipeline.py:1107-1130 | Over disk contents that vary from read to read, fingerprint taken first: where no compared bytes collide, a real run completes if and only if every file holds at its read what its name held at the fingerprint, and every attempt then processed those bytes, or the ones it had in memory |
| `BenchRun.Step` | scripts/benchmark_pipeline.py:1131-1210 | One attempt extends the record by what its outcome contributes: a failure name, or a temperature sample and, unless it warms up, stage samples |
| `BenchRun.Measure` | scripts/benchmark_pipeline.py:1076-1223 | The run stops at the first document it refuses, or its record is that of the attempts of all documents in order |
| `BenchRun.CountsConserved` | scripts/benchmark_pipeline.py:1131-1222 | Attempts = documents times repeats = completed + failed; the values of the failure counter sum to the failed; at most one cold sample; cold + warm = completed |
| `BenchRun.StagesAligned` | scripts/benchmark_pipeline.py:1182-1210 | Times, tickets and kinds have the same stages and equally long lists |
| `BenchRun.OneTotalEach` | scripts/benchmark_pipeline.py:1171-1206 | There is one end-to-end sample per completed attempt that was not a discarded first repeat |
| `BenchRun.ProcessedIffVouched` | scripts/benchmark_pipeline.py:1107-1152 | For every completed real run with a fingerprint: all bytes handed to the processor, in every attempt, are in the fingerprint under their document's name if and only if nothing is repeated or the bytes given in memory were |
| `BenchRun.MemoryIsUnchecked` | scripts/benchmark_pipeline.py:1107-1109 | A completed run that processed bytes whose hash is nowhere in the fingerprint: they were in memory |
| `BenchRun.FileHashes` | scripts/benchmark_pipeline.py:509-538 | The fingerprint is the hash of what each name held while it was taken, file by file, and fails only on a missing file |
| `BenchRun.VouchedEntersDigest` | scripts/benchmark_pipeline.py:599-601 | Bytes that are in the fingerprint entered the sample digest next to their document's name |
| `BenchDigest.SampleDigest` | scripts/benchmark_pipeline.py:569-602 | The digest is the hash of one stream: the manifest, then every name and its digest, names sorted |
| `BenchDigest.StreamTellsApart` | scripts/benchmark_pipeline.py:596-602 | Where the encoded names have the same lengths, two streams are equal if and only if manifests, names and every digest are |
| `BenchDigest.ToldApartExactly` | scripts/benchmark_pipeline.py:569-602 | For every sample, names being any byte strings: no other sample, under the same manifest or one that neither begins nor is begun by it, has its stream if and only if it has no file, or one whose name is no longer than a digest |
| `BenchDigest.FilesRunTogether` | scripts/benchmark_pipeline.py:349-360 | Two staged files or more whose digests, but for the last, could be part of a file name: one staged file has the same stream, its name well-formed UTF-8 without separators and of a supported kind |
| `BenchDigest.AlwaysApartExactly` | scripts/benchmark_pipeline.py:569-602 | For every list of file names: whatever their digests, no other sample of files has their stream if and only if there is no file, or one whose name does not split into a name, as many bytes as a digest, and a later name |
| `BenchDigest.StagedByEnding` | scripts/benchmark_pipeline.py:346-360 | What the harness stages depends on how a name ends, so both results above hold of staged files |
| `Kappa.ExpectedAtMostHalfway` | janasunani/evaluation/adjudication.py:200-204 | In whole numbers: twice the chance agreements are at most n times n plus the observed agreements |
| `Kappa.KappaBounds` | janasunani/evaluation/adjudication.py:193-205 | Kappa is at least -1 and at most the observed agreement, is 1 if and only if the judges agree everywhere, and the guard for expected = 1 is reached only then |
| `Kappa.MinusOneIsReached` | janasunani/evaluation/adjudication.py:193-205 | The lower bound is attained |
| `Kappa.KappaSymmetric` | janasunani/evaluation/adjudication.py:193-205 | Exchanging the judges leaves kappa, errors included |
| `Adjudication.PrepareResolution` | janasunani/evaluation/adjudication.py:227-258 | Succeeds exactly when both judges cover the sample; consensus rows, resolver rows, agreement and kappa are those of the sample in order |
| `Adjudication.PreparedPartition` | janasunani/evaluation/adjudication.py:239-248 | Consensus and resolver input split the ids of the sample in two |
| `Adjudication.FinalizeGold` | janasunani/evaluation/adjudication.py:298-345 | Which error is raised and when; otherwise the gold rows, the exclusion counters by split and stratum, and rows = consensus + accepted |
| `Adjudication.StagesFit` | janasunani/evaluation/adjudication.py:239-314 | After prepare, finalize accepts a resolver's file if and only if it covers exactly the rows sent to the resolver |
| `Adjudication.TableIsExact` | janasunani/evaluation/adjudication.py:239-308 | The consensus table holds exactly the settled rows, under the judges' label |
| `Adjudication.GoldIsTheVerdicts` | janasunani/evaluation/adjudication.py:316-343 | Gold is, in order, one row per sample row with a verdict: the judges' when they agree without doubt, else the resolver's when it has none |
| `Adjudication.StrataConserved` | janasunani/evaluation/adjudication.py:316-343 | In every stratum, sample rows = gold rows + excluded rows |
| `Rings.PointInRing` | scripts/build_deck_map.py:122-130 | The toggling loop tells whether the number of edges the ray crosses is odd |
| `Rings.OutsideTheBox` | scripts/build_deck_map.py:122-130 | No ring encloses a point outside its bounding box, nor one on its right or top side |
| `Rings.StraddlingParity` | scripts/build_deck_map.py:127-128 | A path changes sides of a horizontal line an odd number of times if and only if its ends are on different sides |
| `Rings.RotationInvariant` | scripts/build_deck_map.py:122-130 | The vertex a ring starts at does not matter |
| `Rings.ReversalInvariant` | scripts/build_deck_map.py:122-130 | Nor does its direction |
| `Rings.ReclosingInvariant` | scripts/build_deck_map.py:122-130 | Repeating the first vertex at the end (RFC 7946, section 3.1.6) changes nothing |
| `Rings.ChordSplits` | scripts/build_deck_map.py:122-130 | Cut along a chord, a ring encloses exactly the points that one of the parts encloses and the other does not |
| `Rings.RectangleIsHalfOpen` | scripts/build_deck_map.py:122-130 | A rectangle encloses its points with the left and bottom sides and without the right and top ones |
| `Clearance.StripPath` | scripts/build_deck_map.py:122-131 | Along a path that misses a vertical segment, the crossings of the rays from its ends differ in parity exactly when the path begins and ends on different sides of the strip between the rays |
| `Clearance.EnclosesAllOrNone` | scripts/build_deck_map.py:122-131 | Where no edge of a ring comes into a box, the ring encloses every point of the box or none: the ray cast cannot be wrong about a point and right about its surroundings |
| `DeckMap.InsideTheBox` | scripts/build_deck_map.py:133-141 | A point inside a district lies in the box of one of its exteriors |
| `DeckMap.Centroid` | scripts/build_deck_map.py:80-107 | The centroid is that of the first of the rings with the largest area: its moments over six times its area, or its mean vertex where it has none |
| `DeckMap.InteriorAnchor` | scripts/build_deck_map.py:144-176 | The candidate loops, with their break, compute the anchor or the error |
| `DeckMap.AnchorIsInside` | scripts/build_deck_map.py:144-176 | An anchor is inside the district, is the centre when that is inside, and is missing if and only if no grid point down to the finest grid is inside its polygon |
| `DeckMap.CandidateIsTried` | scripts/build_deck_map.py:155-170 | Every candidate is the inside centre of a cell of a tried grid: the coarsest of each polygon, or a finer one before which nothing at all was found |
| `DeckMap.TriedIsCandidate` | scripts/build_deck_map.py:155-170 | Every inside cell centre of a tried grid is a candidate |
| `DeckMap.AnchorIsNearest` | scripts/build_deck_map.py:144-176 | The anchor of a district that does not hold its centre lies on a tried grid, and no inside point of any tried grid is nearer to the centre |
| `DeckMap.FinerGridHoldsNearer` | scripts/build_deck_map.py:155-170 | A square around a square hole, with its own centroid: the untried 32 by 32 grid has an inside point nearer to the centroid than the anchor |
| `DeckMap.ConstrainedRingPoint` | scripts/build_deck_map.py:179-193 | The farthest of the five points that is inside; from an inside centre the search never fails |
| `DeckMap.PlaceThemes` | scripts/build_deck_map.py:242-253 | One dot per theme with a count, in order, all inside the district, with no failure |
| `DeckMap.PlaceDots` | scripts/build_deck_map.py:225-253 | Placement succeeds if and only if every district has an anchor; then there is one dot per district and theme with a count, in order, and every dot, before its coordinates are rounded for printing, is inside its district |
| `DeckMap.PrintedStays` | scripts/build_deck_map.py:250-253 | Where no ring of the district comes within 0.05 of a dot, across or up, its coordinates printed to one decimal are inside exactly when the dot is |
| `DeckMap.PrintedMayLeave` | scripts/build_deck_map.py:239-253 | Nearer to an edge it can fail: a narrow district whose anchor is its own centroid, and whose dot for the first theme, placed by the first fraction, is printed outside |
| `Sampling.GroupRows` | scripts/sample_categorization_benchmark.py:65-78 | The row loop groups the kept rows by the digest of their folded text, in order of appearance, and counts exactly the rows set aside for PII-shaped text |
| `Sampling.CollectCandidates` | scripts/sample_categorization_benchmark.py:80-104 | The group loop yields one candidate per unanimous group and counts the others |
| `Sampling.CountSupport` | scripts/sample_categorization_benchmark.py:106-108 | The counters hold the support of every category and split |
| `Sampling.SplitCategories` | scripts/sample_categorization_benchmark.py:104-115 | The two category lists are sorted, hold each category once, and divide the categories by support in all three splits |
| `Sampling.CountBy` | scripts/sample_categorization_benchmark.py:126-129 | The counter of a key: there exactly for keys met, with the number of their records |
| `Sampling.PrepareRecords` | scripts/sample_categorization_benchmark.py:53-132 | The selection is that of the rows, and every figure of the evidence is what it says: rows, groups, conflicts, rows set aside, category lists, counts; errors exactly for an empty salt or a support below one |
| `Sampling.SelectionForgetsRowOrder` | scripts/sample_categorization_benchmark.py:53-132 | With distinct tickets and a digest that tells them apart, the output does not depend on row order |
| `Sampling.RecordSpeaksForGroup` | scripts/sample_categorization_benchmark.py:82-104 | A selected record's label is that of every kept row of its group, and its split that of an earliest filing |
| `Sampling.GroupsAreDisjoint` | scripts/sample_categorization_benchmark.py:82-119 | No group appears twice, so none is in two splits |
| `Sampling.SupportSurvives` | scripts/sample_categorization_benchmark.py:106-119 | Every category in the selection has the minimum support in all three splits of the selection itself |
| `Sampling.EligibleAreSelected` | scripts/sample_categorization_benchmark.py:108-118 | The categories reported as eligible are exactly those of the selected records |
| `Sampling.SplitCountsAddUp` | scripts/sample_categorization_benchmark.py:127 | The split counts sum to the number of records |
| `Sampling.CategoryCountsAddUp` | scripts/sample_categorization_benchmark.py:128-130 | So do the category counts, over any listing of the categories |
| `Crud.Session.Commit` | janasunani/db/crud.py:348-353 | All pending rows are written when constraints and ticket uniqueness hold, and none otherwise |
| `Crud.Session.SetFields` | janasunani/db/crud.py:341-344 | The attribute loop leaves the object with the record's fields over its own |
| `Crud.Session.CreateOrUpdate` | janasunani/db/crud.py:86-113 | One upsert: the record over its row, or nothing when rejected |
| `Crud.Session.BatchCreateOrUpdate` | janasunani/db/crud.py:254-268 | Records upserted in order, rejected ones skipped |
| `Crud.Session.BulkLoad` | janasunani/db/crud.py:318-359 | The bulk path, rollback and fallback included, ends in the table the in-order upserts give, for any constraints and any duplicate tickets |
| `Crud.FoldRow` | janasunani/db/crud.py:254-268 | Ticket by ticket: the row after the fold is its base under the last record the constraints let through |
| `Crud.BulkIsFold` | janasunani/db/crud.py:329-355 | A bulk commit that succeeds leaves exactly the table of the record-by-record path |
| `Crud.OtherColumnsKept` | janasunani/db/crud.py:318-359 | No column outside the schema is changed and no row removed |
| `Crud.LoadingAgain` | janasunani/db/crud.py:318-359 | Loading the same batch again changes nothing |
| `Breaker.DecisionsAreComplements` | janasunani/db/crud.py:655-685 | The skip decision and the needs-fetch branches are complements as functions of the tracking row |
| `Breaker.FailuresSinceIsTheTail` | janasunani/db/crud.py:454-577 | The failures since the last success are the longest failing tail of the history |
| `Breaker.Tracker.RecordSuccess` | janasunani/db/crud.py:454-499 | A success sets the time and clears the count, keeping every row what its history says |
| `Breaker.Tracker.MarkFailed` | janasunani/db/crud.py:544-577 | A failure adds one to the count, or starts a row at one, keeping every row what its history says |
| `Breaker.Tracker.ShouldSkip` | janasunani/db/crud.py:502-541 | Skipped exactly when the last success is recent or the failures since it reached the threshold |
| `Breaker.Tracker.NeedingFetch` | janasunani/db/crud.py:641-689 | The tickets returned are, in order, those that would not be skipped |
| `Breaker.Tracker.Drive` | janasunani/db/crud.py:454-577 | A driver that obeys the skip never takes a count beyond a threshold of at least one, and never touches a key that reached it again |
| `Breaker.Tracker.FirstFailure` | janasunani/db/crud.py:502-577 | With a threshold below one the first failure already exceeds it |
| `Threshold.ConfidenceIsLargest` | janasunani/evaluation/classification.py:184-187 | The confidence of the first-ranked label is the largest probability, whichever way ties are broken |
| `Threshold.CandidateFor` | janasunani/evaluation/categorization.py:256-260 | Every real threshold in [0, 1] keeps the same examples as a candidate at least as large |
| `Threshold.StrictCandidateFor` | janasunani/evaluation/categorization.py:256-260 | Were retention strict, a candidate not above would keep the same examples |
| `Threshold.ChooseIsOptimal` | janasunani/evaluation/categorization.py:268-297 | Against every real threshold: highest coverage among those meeting both constraints, then accuracy, then the largest threshold; else the best accuracy among those meeting coverage; else of all |
| `Threshold.SelectAbstentionThreshold` | janasunani/evaluation/categorization.py:243-297 | The selection returns that optimum, and fails exactly on bounds outside [0, 1] or no examples |
| `Text.SplitOfJoin` | scripts/check_no_terraform_plans.py:433 | Splitting inverts joining lines with a line feed each |
| `Text.StripDecides` | scripts/check_no_terraform_plans.py:433 | Stripping leaves nothing exactly for blank text, and everything exactly for trimmed text |

## Left out

- Floating-point rounding: all real arithmetic is exact, and standard errors appear squared, without their square root.
- Unicode beyond the line breaks of `str.splitlines`: white space, digits and letters are the ASCII classes, and UTF-8
  decoding of archive names is modelled byte by byte, each byte of 128 or more standing for one replacement character.
- The engines: DuckDB and SQLAlchemy appear as sequences, maps and an explicit transaction; surrogate row ids,
  autoflush and the objects the loaders return are not modelled.
- Crud.Session.CreateOrUpdate: an exception that is not an integrity error, which the code re-raises without rolling
  back, is not modelled; the constraints are a predicate on the row's ticket and columns.
- Breaker.Tracker.ShouldSkip: time zones and the exception path that answers false; instants are seconds.
- Breaker.Tracker.NeedingFetch: the exception path that answers an empty list, and reading the complaints table.
- Sampling.PrepareRecords: the constant language and source-kind fields of a record, and the sorting of the count maps'
  keys, whose values are stated per key.
- Adjudication.PrepareResolution: loading and validating JSON lines, provenance fields, distributions and file digests;
  the sample is taken as loaded, nonempty and without repeated ids, and a label is one of the five.
- Adjudication.FinalizeGold: the sample manifest check and the manifest written out.
- BenchDigest.AlwaysApartExactly: the hexadecimal spelling of digests, limits on the length of a file name, and samples
  of which one has a manifest and the other none; lengths and order of names are those of their encoded bytes.
- BenchRun.Measure: sleeping on the synthetic path, the construction of the processor, and the sorting of the failure
  map; failure totals are stated over any listing of its keys.
- BenchPdf.ReadsBack: the reader goes from the table to object 5 directly instead of through the page tree, whose
  objects are fixed text, and reads the strings of the stream without interpreting its positioning operators.
- DeckMap.PlaceDots: the projection, dot radii and the final sort by radius; projected polygons and their centre are
  given, the centroid (`DeckMap.Centroid`) being carried over by a projection that is affine, and every polygon has a
  nonempty exterior. The grids are a parameter, which `DeckMap.Build` fixes. The dots proved inside are the unrounded
  ones; `DeckMap.PrintedStays` says when their printed coordinates are too.
- Threshold.SelectAbstentionThreshold: the other figures of the metrics dictionary; that probabilities sum to one is
  not needed.
- PiiAudit.Gate: printing, samples and the sanitized payload; loading the JSON lines.
- PlanArchive.PlanMembersOfBlob: reading an archive's central directory, whose listing is given.
- Mart.DecodeFitsJourney: the deduplication of source rows and the other views of the SQL file.
- Report and brief generators, the map's HTML, infrastructure probes, provenance sidecars and the other ingestion code:
  they would add easy members only.
