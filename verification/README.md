# k8s-health: a verified model

This project models the scheduling, reporting and rendering core of `khealth`, a
read-only Kubernetes health checker, and proves what that core promises:

- **The runner** (`Pool`, `PoolLaws`, `PoolOrder`, `PoolSchedules`,
  `PoolChoice`): the feeder, the
  worker pool, the collector and the shutdown as a labelled transition system in which
  every unbuffered send and receive is one joint step and the context may end at any
  moment. Safety, conservation, freedom from deadlock, termination, and an exact
  description of the reports it can deliver.
- **From the report to the exit code and the screen** (`Findings`, `Baseline`, `Cli`,
  `Sorting`, `Grouping`, `Determinism`, `Cancellation`): severities, the keyed diff, in-place filtering,
  baseline tagging, stable sorting and grouping, and the theorem that, for given results of
  the checks, scheduling decides nothing about the exit and the rendered sections but whether
  the deadline came first. What a cancellation does to the results, and so to the exit, is
  stated in `Cancellation`.
- **The table engine** (`Columns`, `Wrapping`, `WrapLaws`, `WrapExcess`, `WrapCuts`, `WrapSpacing`, `Table`,
  `TableLaws`, `TableSection`, `TableReading`) and the compact rows (`Compact`): width allocation, greedy wrapping,
  row and border assembly, from findings to the characters of each line.
- **The watch screen** (`Watch`, `WatchLaws`, `WatchOrder`): the message-driven model with its shared
  tracker, overlapping runs, pause, error and quit, over every history of events.
- **The registry** (`Registry`) and **the dangling-backend check** (`Ingress`, `IngressReport`) with its
  lookup cache.

`Sequences` holds the shared vocabulary. Code that updates state is modelled by methods
and classes that do the same updates, each proved equal to a function of its inputs or
of the old state; the properties are then proved about those functions.

## How to read the model

- Strings are sequences of code points, which is what the renderers count
  (`utf8.RuneCountInString`); for valid UTF-8, comparing code points is comparing bytes.
- `Status` is an open string type in the source, so every function is total on statuses
  outside the five constants.
- Sorting is `StableSort`, one function with the documented result of `sort.SliceStable`.
  `Sorting.StableSortUnique` shows there is only one such result. `sort.Slice` is used
  by the registry only, where the keys are distinct.
- What a check's own `Run` returns is chosen freely by the step that executes it; it may
  be empty. Times and durations are arbitrary values.
- A panic on a duplicate registration is a `false` result that leaves the registry alone.

## Where the code and its documentation differ

- `internal/runner/runner.go:35` says the findings are sorted by check ID. They are
  appended as they arrive: `PoolOrder.SortedExactly`, `PoolOrder.OvertakingRun`.
- `docs/cli-reference.md:28` says that `--only-unhealthy` suppresses findings with status
  OK. The code drops SKIP as well: `Cli.OnlyUnhealthyAsDescribedExactly`, `Cli.SkipDisappears`.
- `internal/result/result.go:14` calls the statuses ordered from least to most severe. The
  declared order is not the ranking: `Findings.DeclaredOrderExactly`,
  `Findings.DeclaredOrderMisleads`.
- `internal/result/baseline.go:9-11` says that report output can be reused as a baseline.
  Output of a run that was itself compared with a baseline has tagged resources:
  `Cli.TaggedReportAsBaseline`, `Cli.KnownComesBackAsNew`. A baseline saved by the command is written before tagging.
- `internal/render/table.go:285` says wrapping gives no line wider than the width:
  `WrapLaws.WrapFitsExactly`. And a cell that already fits is not split at its line breaks:
  `TableLaws.TableBreaksExactly`, `TableSection.LineBreakInMessage`.
- `docs/adr/0006-output-formats.md:48` gives status 3 to anything that prevents the report from
  being trustworthy. A canceled run returns its truncated report without an error and exits
  by what is in it: `Cancellation.CancelKeepsExitExactly`, `Cancellation.CancelHidesFinding`,
  `Cancellation.CancelLooksWorse`.
- `internal/watch/diff.go:18` speaks of the previous tick. The comparison is with the
  previously delivered report, which may be of a later run: `WatchOrder.UpToDateExactly`,
  `WatchOrder.RefreshAtStart`.

## Model

| member | source | states |
|---|---|---|
| Pool.RunOne | internal/runner/runner.go:91-113 | If the wanted flags would add something to those of the environment, the check is not touched and one SKIP finding with its ID and the fixed message comes back; otherwise every finding keeps its fields and gets the measured duration, written into the slice the check returned. |
| Pool.StepKeepsGood | internal/runner/runner.go:38-89 | The protocol invariant survives every step of every goroutine: dispatched checks are a prefix of the list, each is running, sending or done in exactly one place, what a worker still has to send is exactly what the report lacks, and channels close in order. |
| Pool.ReachableIsGood | internal/runner/runner.go:38-89 | Every state of every schedule, for every worker count and every moment of cancellation, satisfies that invariant. |
| PoolLaws.NothingLostOrInvented | internal/runner/runner.go:53-83 | In every reachable state each finding is collected or still to be sent exactly as often as the executed checks returned it. |
| PoolLaws.RunDelivers | internal/runner/runner.go:81-88 | When Run returns: the dispatched checks are a prefix of the list (the whole list if the context was never ended), the report is a merge of what they returned, each check's findings in their own order, and feeder, collector and all workers are gone. |
| PoolLaws.MissingIsSkipped | internal/runner/runner.go:91-98 | In a finished run a dispatched check contributes the one SKIP finding exactly as written if its flags would add something to the environment's. |
| PoolLaws.OneDurationPerCheck | internal/runner/runner.go:99-112 | In a finished run all findings of one check carry the same duration. |
| PoolLaws.MergeFacts | internal/runner/runner.go:76-79 | A merge has the multiset of its parts and contains each part as a subsequence. |
| PoolSchedules.ErrorTellsNothing | internal/runner/runner.go:85-88 | The returned error says nothing about the report: for any results of any prefix of the checks, complete or cut short, exactly the same reports can be delivered with an error (the deadline ended the context at some moment) and without one. |
| PoolLaws.NeverPanics | internal/runner/runner.go:53-55 | No reachable state has sent on the closed findings channel; it is closed only after every worker has left. |
| PoolLaws.BoundedConcurrency | internal/runner/runner.go:39-59 | Never more checks run at once than there are workers (8 if the option is not positive), no check runs in two workers, and none runs again after it has returned. |
| PoolLaws.NoDeadlock | internal/runner/runner.go:38-89 | A reachable state has an enabled step if and only if Run has not returned. |
| PoolLaws.StepDescends | internal/runner/runner.go:38-89 | Every step, whatever the checks return, lowers a lexicographic measure. |
| PoolLaws.NoEndlessRun | internal/runner/runner.go:38-89 | No endless sequence of states is a schedule. |
| PoolLaws.Complete | internal/runner/runner.go:38-89 | Every partial run can be finished without ending the context, keeping what is collected. |
| PoolOrder.OneWorkerKeepsOrder | internal/runner/runner.go:53-58 | With one worker the report is the concatenation of the checks' results in list order. |
| PoolOrder.SortedExactly | internal/runner/runner.go:34-37 | The comment promises findings sorted by check ID. For lists in ID order that holds of all complete runs if and only if there is one worker or at most one check. |
| PoolOrder.OvertakingRun | internal/runner/runner.go:53-58 | A schedule of two workers in which the second check's finding is collected before the first's. |
| PoolSchedules.RunIsSchedulable | internal/runner/runner.go:49-79 | In every finished run no finding overtakes more checks than there are other workers: at each delivery at most as many dispatched checks are unfinished as there are workers. |
| PoolSchedules.PossibleExactly | internal/runner/runner.go:38-89 | For every worker count, every prefix of the checks, every choice of their results and every state the context may end in, the reports that finished runs can deliver are exactly the merges with that window property: no run delivers another, and for each there is a schedule. A context that stays live goes with the whole list only. |
| PoolSchedules.RoomForAll | internal/runner/runner.go:49-59 | With at least as many workers as checks the window property is no restriction: every merge qualifies. |
| PoolChoice.OneReportExactly | internal/runner/runner.go:53-79 | For given results carrying their own checks' IDs all finished runs deliver the same report if and only if there is one worker or at most one check returned any finding. JSON and YAML print that report as it arrived. |
| Determinism.ExitIsScheduleIndependent | internal/cli/check.go:103-109 | For given results: the command ends with the runner's error exactly when the deadline ended the context before Run returned, and then, as on any tool error, the exit status is 3. Otherwise the exit and its status are those of the results in list order, for every interleaving, worker count, filter and baseline. Which results there are after a cancellation is the subject of the next rows. |
| Cancellation.CutOutranksExactly | internal/runner/runner.go:61-88 | A finished run, cut short or not, against a second run with which it agrees on every check that returned before its context ended: its verdict is of higher rank if and only if a check that returned after the end reported a finding outranking all of the second run. |
| Cancellation.CancelLooksWorse | internal/runner/runner.go:106-112 | The case occurs: canceled while its only check runs, which then answers with a CRIT, the run exits 1 although the complete run exits 0, both without an error. |
| Cancellation.CancelKeepsExitExactly | internal/runner/runner.go:85-88 | A cancellation is no error: all finished runs without an error that deliver a prefix of given results have the exit code of all of them if and only if that code is 0. |
| Cancellation.CancelHidesFinding | internal/runner/runner.go:64-69 | The failing case occurs: canceled before its only check starts the run exits 0, the complete run with a CRIT exits 1, both without an error. |
| Cancellation.DispatchAfterEnd | internal/runner/runner.go:61-69 | The end of the context does not stop the feeder at once: for every list that is not empty some finished run ends the context first, and starts its first check only then. |
| Determinism.MergeOfCheck | internal/runner/runner.go:54-56 | The part of a report that names one check is exactly what that check returned, in its order. |
| Determinism.AgreementFixesOrder | internal/render/compact.go:64-70 | The renderers' flat order depends only on each check's own sublist. |
| Determinism.CommandKeepsAgreement | internal/cli/check.go:152-189 | Hiding healthy findings and tagging against any baseline preserve agreement check by check. |
| Determinism.MergesShowTheSame | internal/render/compact.go:64-74 | For two reports that merge the same results, filtered and tagged alike, each status section lists the same findings in the same order, has the same groups, and its compact rows and its table are equal character for character. |
| Determinism.OutcomeAgreesExactly | internal/cli/check.go:36-62 | Two finished runs with the same results, whatever their interleavings and worker counts, end the command alike (the same tool error, or the same exit and, section by section, the same pretty groups, compact rows and tables at every width) if and only if both or neither of them returned an error. JSON and YAML are not part of this. |
| Determinism.ErrorIsUpToTheSchedule | internal/cli/check.go:103-106 | Both cases occur: every finished run has a twin with the same results and the same report, of which exactly one returned an error. |
| Findings.Worst | internal/result/result.go:43-51 | The loop returns CRIT, WARN or UNKNOWN if present, in that precedence, and OK otherwise (also for an empty report or unknown statuses). |
| Findings.ExitCode | internal/result/result.go:71-83 | 1 if and only if a CRIT is present, else 2 if and only if strict and a WARN is present, else 0. |
| Findings.VerdictIsMaximal | internal/result/result.go:41-65 | No finding outranks the verdict, the verdict occurs in the report unless it is OK, and it is OK exactly when nothing ranks above OK. |
| Findings.VerdictDependsOnSeverities | internal/result/result.go:43-83 | Two reports with the same ranked statuses have the same verdict and exit codes. |
| Findings.VerdictIgnoresOrder | internal/result/result.go:43-83 | Permuting the findings changes neither verdict nor exit code. |
| Findings.DeclaredOrderExactly | internal/result/result.go:14-21 | Severity by declared position gives the verdict if and only if no SKIP occurs and UNKNOWN does not occur together with WARN or CRIT. |
| Findings.DeclaredOrderMisleads | internal/result/result.go:14-21 | UNKNOWN and WARN together: by the declared order UNKNOWN, in fact WARN. |
| Baseline.Compare | internal/result/baseline.go:62-89 | The loops compute the three filters by key membership. |
| Baseline.CompareSplitsCurrent | internal/result/baseline.go:52-57 | New and Persisting partition the current findings as a multiset; all three lists keep the order of the list they come from. |
| Baseline.CompareKeys | internal/result/baseline.go:62-89 | The keys of the three lists are the set differences and the intersection, and old keys minus Cleared plus New are the current keys. |
| Baseline.CompareMirrors | internal/result/baseline.go:62-89 | Swapping the arguments turns Cleared into New; a list compared with itself is all Persisting. |
| Baseline.KeyFaithful | internal/result/baseline.go:63-65 | Among (status, check) pairs none of whose headers is a prefix of another's, equal keys mean equal triples, whatever the resources contain. |
| Baseline.PlainIsPrefixFree | internal/result/baseline.go:63-65 | Statuses and check IDs without a vertical bar always satisfy that condition. |
| Baseline.TripleDiffExactly | internal/result/baseline.go:59-62 | Compare equals the documented comparison by (Check, Resource, Status) for all lists over a set of (status, check) pairs if and only if no header is a prefix of another. |
| Baseline.BarInCheckNameCollides | internal/result/baseline.go:63-65 | A check whose name contains the separator can share its key with another check and resource. |
| Cli.KeepUnhealthy | internal/cli/check.go:181-187 | Compacting into the front of the array being read leaves there exactly the findings that are neither OK nor SKIP, in order, and the rest of the array untouched. |
| Cli.ApplyOnlyUnhealthy | internal/cli/check.go:177-189 | Without the flag the report is returned as it is, with it only its findings are filtered. |
| Cli.OnlyUnhealthyKeepsVerdict | internal/cli/check.go:177-189 | Filtering changes neither the verdict nor, strict or not, the exit code. |
| Cli.ApplyBaseline | internal/cli/check.go:152-175 | A load error returns the report and the error, no baseline changes nothing, and otherwise a finding is tagged exactly when its key is among the baseline's. |
| Cli.BaselineKeepsVerdict | internal/cli/check.go:152-175 | Tagging keeps length, order and every field but the resource, hence verdict and exit code. |
| Cli.TagRoundTrip | internal/render/compact.go:122-127 | The compact renderer recovers each original resource and whether it was new if and only if no new finding's own resource starts with the tag. |
| Cli.LookalikeResourceMisread | internal/render/compact.go:122-127 | A resource already spelled with the tag is read as a known finding. |
| Cli.CheckExit | internal/cli/check.go:119-128 | An exit error exactly for code 1 (worst CRIT) or, strict only, 2 (worst WARN). |
| Cli.RunCheck | internal/cli/check.go:36-62 | The command from the runner on, in the order of the source: a runner error ends it before anything else, then filter, saving a baseline (whose failure ends it), comparing with one (whose failure ends it), exit. |
| Cli.CommandShowsExactly | internal/cli/check.go:152-189 | What is shown: the findings in their order, without OK and SKIP if so asked; with a baseline of headers that cannot be confused a finding has '[seen-before] ' before its resource if and only if one of the baseline has its status, check and resource; nothing else differs but the distro, and without a baseline nothing does. |
| Cli.OutcomeExactly | internal/cli/check.go:36-62 | Which failure ends the command, in the order runner, saving, loading; otherwise the exit error is 1 with CRIT, or strict only 2 with WARN, or none. |
| Cli.CommandKeepsExit | internal/cli/check.go:36-62 | The command shows a report if and only if the runner returned no error and neither baseline file failed; then it exits as the unfiltered, untagged report would. |
| Cli.ExitStatusExactly | cmd/khealth/main.go:19-34 | The exit status is 3 if and only if the runner or a baseline file failed (a cancellation is neither), else 1 if and only if a CRIT was found, else 2 if and only if strict and a WARN was found, else 0. |
| Cli.OnlyUnhealthyAsDescribedExactly | docs/cli-reference.md:28 | The flag drops exactly the OK findings, as described, if and only if the report has no SKIP. |
| Cli.SkipDisappears | internal/cli/check.go:184 | A SKIP finding that the description keeps and the code drops. |
| Cli.TaggedReportAsBaseline | internal/result/baseline.go:9-11 | For headers that cannot be confused and untagged resources: a report shown against a baseline and read back as a baseline makes exactly the known findings look new, so it can be reused, as the comment promises, if and only if nothing was known. |
| Cli.KnownComesBackAsNew | internal/cli/check.go:167-171 | One known finding, tagged and read back, that looks new. |
| Sorting.StableSortUnique | internal/render/pretty.go:208-212 | Every sorted arrangement that keeps ties in input order is the same sequence, so modelling the library sort by one such arrangement loses nothing. |
| Sorting.StrLtExactly | internal/render/table.go:87-92 | The order of strings: a proper prefix is smaller, and otherwise the first place where they differ decides, smaller code point first. |
| Grouping.CollectByCheck | internal/render/pretty.go:196-206 | The index map and the groups agree: one group per check, holding that check's findings in order, and each group's first finding comes before all findings of the groups behind it. |
| Grouping.SortInsideGroups | internal/render/pretty.go:207-211 | Each group becomes its own stable sort by resource. |
| Grouping.GroupByCheck | internal/render/pretty.go:195-214 | Group names strictly increase, groups are homogeneous and not empty, and the groups one after the other are the flat stable sort by check and resource. |
| Grouping.GroupedEqualsFlat | internal/render/pretty.go:195-214 | Resource-sorted groups with strictly increasing names that cover the findings concatenate to the order the compact and table renderers compute directly. |
| Grouping.FlatOrderIs | internal/render/table.go:86-92 | The flat order has each finding as often as the input, the smaller check first and within a check the smaller resource. |
| Grouping.FlatOrderIsStable | internal/render/table.go:86-92 | Findings of one check and one resource keep the order they came in. |
| Grouping.GroupsFixed | internal/render/pretty.go:195-214 | The flat order leaves one way of grouping: homogeneous groups with increasing names and the same concatenation are the same groups. |
| Grouping.BucketByStatus | internal/render/pretty.go:216-222 | A bucket exists exactly for the statuses present and holds their findings in order. |
| Grouping.TableListsAllExactly | internal/render/table.go:21-58 | The table's five sections list every finding as often as it occurs if and only if all statuses are among the five. |
| Grouping.SectionsInOrder | internal/render/table.go:36-42 | The sections come as CRIT, UNKNOWN, WARN, OK, SKIP. |
| Grouping.SectionIsFlat | internal/render/table.go:43-49 | What is listed under a status is exactly the flat order of its findings. |
| Columns.MeasureColumns | internal/render/table.go:176-188 | The scan computes each column's natural width. |
| Columns.NaturalWidthIsLeast | internal/render/table.go:176-188 | The natural width bounds the header and every cell of the column and is reached by one of them. |
| Columns.ShrinkFromRight | internal/render/table.go:199-218 | From overflowing natural widths the loop leaves each column at its natural width minus what the excess still demands after the columns to its right, never below the lesser of natural width and floor. |
| Columns.ComputeWidths | internal/render/table.go:176-219 | All three exits: no room for the borders and no overflow give the natural widths, anything else the shrunk ones. |
| Columns.ContentDecides | internal/render/table.go:176-197 | If all fits, or the borders alone leave no room, a column is as wide as the longest of its header and cells. |
| Columns.HeadersKeepTheirWidth | internal/render/table.go:199-218 | No column is narrower than its header, nor than eight characters where a cell has as many. |
| Columns.NarrowestExactly | internal/render/table.go:199-218 | If the floors alone fill the terminal, a column has its floor, the header and at least eight, or what it needs if that is less. |
| Columns.WidthsExact | internal/render/table.go:172-219 | On overflow a width list has total max(avail, least possible total), untouched columns left of a pivot and fully shrunk ones right of it if and only if it is what computeWidths returns. |
| Columns.FitsExactly | internal/render/table.go:176-219 | A line of the table fits maxWidth if and only if the fully shrunk columns with their borders do. |
| Wrapping.HardBreak | internal/render/table.go:309-316 | The piece loop appends the full-width pieces of an over-long word. |
| Wrapping.WrapWords | internal/render/table.go:295-343 | The word loop with its pending line builds exactly the greedy line breaking. |
| Wrapping.WrapCell | internal/render/table.go:287-343 | All exits: no width, short text, no words, and greedy breaking otherwise. |
| Wrapping.ChunksExact | internal/render/table.go:309-316 | An over-long word gives ceil(n / width) pieces, all full but perhaps the last, which spell the word. |
| WrapLaws.WrapFits | internal/render/table.go:285-286 | For a positive width there is at least one line and none is longer than the width. |
| WrapLaws.WrapFitsExactly | internal/render/table.go:285-292 | No line is wider than the width if and only if the width is positive, or zero and the text empty. |
| WrapLaws.WrapOptimal | internal/render/table.go:287-343 | Among all layouts in which pieces of over-long words stand alone, none with lines of at most the width uses fewer lines. |
| WrapLaws.WrapMinimizesLines | internal/render/table.go:287-343 | If every word fits, no split of the words into single-space-joined lines of at most the width is shorter, and one is as short. |
| WrapLaws.LeftoverPieceNotShared | internal/render/table.go:305-318 | One text that takes three lines at width 3 although a split of its words and pieces into two lines fits. |
| WrapExcess.ExcessExactly | internal/render/table.go:287-343 | With over-long words too: the number of lines is the fewest into which the words, and the pieces of over-long words, can be split, plus exactly one for each piece behind which the following words would have saved a line. |
| WrapExcess.MinimalExactly | internal/render/table.go:287-343 | So the number of lines is the fewest possible if and only if behind no piece would the following words have saved a line. |
| WrapExcess.MinimalWithoutRoom | internal/render/table.go:305-318 | In particular if every piece is last, is followed by another over-long word, or leaves no room for the next word. |
| WrapCuts.FillingIsFewest | internal/render/table.go:303-335 | Over all ways of cutting over-long words, anywhere, the fewest lines are those of filling each line to its last column on the way. |
| WrapCuts.WithinTwoPerLongWord | internal/render/table.go:287-343 | Against every such cut the code uses at least the fewest lines and at most two more for each over-long word. |
| WrapCuts.TwoLinesMore | internal/render/table.go:305-318 | The bound is reached: a text with one over-long word that takes four lines where two would do. |
| WrapLaws.WrapKeepsWords | internal/render/table.go:287-343 | Read back word by word the lines give the words of the text, over-long ones as their pieces, none lost or reordered. |
| WrapLaws.WrapKeepsText | internal/render/table.go:287-343 | The non-space characters of the lines are those of the text, in order. |
| WrapSpacing.LinesAreSingleSpaced | internal/render/table.go:320-335 | A text that is wrapped has no space at the ends of a line, no two together, and none but the plain one, whatever separated its words. |
| WrapSpacing.FirstFit | internal/render/table.go:320-335 | If every word fits, no line has room for the first word of the next. |
| Table.BorderLine | internal/render/table.go:345-356 | Ends, dashes of width plus two, and a junction between columns only. |
| Table.WriteWrappedRow | internal/render/table.go:237-283 | Cells missing from the row are empty, the row is as high as its highest cell, and each line pads each segment to its column. |
| Table.DrawTable | internal/render/table.go:135-163 | The emitted lines are those of the specification, which the next four rows read back. |
| TableReading.TableReadsBack | internal/render/table.go:135-163 | Row r stands behind the top rule, the header, the middle rule and the heights of the rows before it; in every column, between bars and single spaces, its lines show the wrapped cell line by line, from the left edge and padded with spaces, and top to bottom they spell the cell, up to spaces; one line follows the last row. |
| TableReading.HeaderReadsBack | internal/render/table.go:150-153 | The header reads the same way from line 1 on. |
| TableReading.RulesInPlace | internal/render/table.go:141-162 | Top, middle and bottom rule, with their own corners and junctions at the column boundaries and dashes between, stand first, behind the header, and last. |
| TableReading.RowHeightExactly | internal/render/table.go:237-262 | A row has one line, or as many as the highest of its wrapped cells if that is more. |
| TableLaws.CellsConfined | internal/render/table.go:176-283 | Whatever the cells, no wrapped segment is wider than the column computed for it. |
| TableLaws.TableIsRectangle | internal/render/table.go:135-163 | Every line has 1 + sum of (width + 3) runes, for all rows and all widths, if and only if there is at least one column. |
| TableLaws.TableFitsExactly | internal/render/table.go:132-163 | Every line stays within maxWidth if and only if the fully shrunk columns do. |
| TableLaws.FindingsTableFits | internal/render/table.go:94-105 | A findings table always fits 34 columns or more, and fits no fewer once CHECK and MESSAGE need their floor of 8. |
| TableLaws.JunctionsAlign | internal/render/table.go:250-283 | At each column boundary every row line has its bar where the rules have their junction or end. |
| TableLaws.RowShowsCell | internal/render/table.go:237-283 | Reading one column of a drawn row from top to bottom gives the whole cell, up to spaces. |
| TableLaws.TableShowsCells | internal/render/table.go:135-163 | So no cell of a table is cut off, at any maxWidth. |
| TableLaws.TableBreaksExactly | internal/render/table.go:287-293 | An emitted line contains a line break if and only if some header or cell contains one and fits its column unwrapped. |
| TableSection.WriteTableSection | internal/render/table.go:80-110 | The section is the table of the findings in flat order, with a dash for an empty resource. |
| TableReading.SectionReadsBack | internal/render/table.go:86-105 | Read back from the emitted lines, the rows of a section are the findings in flat order: check, resource (or a dash) and message, in this order. |
| TableReading.SectionHeadings | internal/render/table.go:94 | They stand under CHECK, RESOURCE and MESSAGE. |
| TableSection.SectionFits | internal/render/table.go:80-110 | For every list of findings and every width from 34 on, the section is a rectangle inside that width. |
| TableSection.SectionShowsFindings | internal/render/table.go:94-105 | Each finding's check, resource and message can be read in full from its row. |
| TableSection.ShortMessageBreaks | internal/render/table.go:285-293 | A finding whose message has at most seven characters and a line break among them breaks a line of its section at every terminal width. |
| TableSection.LineBreakInMessage | internal/render/table.go:285-293 | One such message. |
| Compact.CompactWidths | internal/render/compact.go:129-149 | The widest check and shown resource, capped at 32 and 56. |
| Compact.WriteCompactSection | internal/render/compact.go:64-100 | One row per finding in flat order, with colours off. |
| Compact.CompactRowsAlign | internal/render/compact.go:72-96 | No row is missing; in every row two spaces, the bar and two spaces come first, then check, untagged resource (or a dash) and message at the same columns with two spaces between, whole and padded up to the caps of 32 and 56 and otherwise cut with an ellipsis to exactly the cap. |
| Compact.ColumnsAreTight | internal/render/compact.go:129-149 | A column is at its cap or as wide as its widest cell. |
| Watch.Tracker.Diff | internal/watch/diff.go:39-55 | New keys are the report's keys not in the previous report, none on a first report unless asked for; the tracker then holds exactly this report's keys. |
| Watch.NewModel | internal/watch/model.go:52-58 | Empty screen, fresh tracker. |
| Watch.Update | internal/watch/model.go:83-119 | Every message changes the screen and the shared tracker, and returns commands, as the step function says; the tracker object is kept. |
| WatchLaws.EveryRunAccountedFor | internal/watch/model.go:61-119 | Over every history: exactly one timer is outstanding; runs started = reports + errors + in flight = 1 + refreshes + ticks while not paused; paused is the parity of p. |
| WatchLaws.PausedStartsNothing | internal/watch/model.go:93-104 | An event starts no run if and only if it is not r and not a tick outside a pause. |
| WatchLaws.ScreenShowsHistory | internal/watch/model.go:105-117 | Run count, report, tracker keys, new keys and error are functions of the delivered reports and the last outcome; errors in between change nothing else. |
| WatchLaws.HighlightsAreTheDiff | internal/watch/diff.go:36-55 | After at least two reports the highlighted findings are those the baseline comparison of the last two calls new; after the first, none. |
| WatchLaws.HighlightsOnTriples | internal/watch/diff.go:8-16 | For headers that cannot be confused, in the documented terms: a shown finding is highlighted if and only if no finding with its status, check and resource was in the previously delivered report. |
| WatchLaws.QuittingIsFinal | internal/watch/model.go:85-89 | Over every history: the program is told to stop, the model is quitting and the view is blank, each if and only if q, ctrl+c or esc was ever pressed. |
| WatchLaws.ViewExactly | internal/watch/model.go:121-147 | Over every history the view is blank once a quit key was pressed; else the last outcome's error; else the loading screen before the first report; else the last report with what its predecessor lacked. |
| WatchLaws.ScreenKeepsExtras | internal/watch/model.go:96-116 | Width and height are those of the last resize, the time is that of the last outcome and the duration that of the last report. |
| WatchOrder.NoOverlapIsOrderly | internal/watch/model.go:93-112 | If no run is started while another is in flight, runs deliver in the order of their start, and the run in flight is newer than all that have delivered. |
| WatchOrder.TwoInFlightMislead | internal/watch/model.go:105-112 | Any history with two runs in flight and no quit extends to one where the findings shown are an older run's, and the highlights are not the difference between the two latest started runs that reported. |
| WatchOrder.UpToDateExactly | internal/watch/diff.go:18-22 | At every point of a history, however the runs then in flight come back, the screen shows the latest started run that reported, compared with the one before it, if and only if until quitting no run was started while another was in flight. |
| WatchOrder.RefreshOverlaps | internal/watch/model.go:93-94 | Pressing r while a run is in flight is enough to lose that. |
| WatchOrder.RefreshAtStart | internal/watch/model.go:61-63 | For instance before the first report. |
| Registry.Registry.Register | internal/checks/registry.go:66-74 | Succeeds exactly for an ID not yet registered; a duplicate changes nothing. |
| Registry.Registry.All | internal/checks/registry.go:76-86 | Whatever order the map is visited in, the result holds exactly the registered checks in strictly increasing ID order. |
| Registry.Registry.Filter | internal/checks/registry.go:88-120 | Exactly the registered checks that pass the documented selection, in strictly increasing ID order. |
| Registry.FilterDropsExactly | internal/checks/registry.go:100-119 | A registered check is missing from the result if and only if it is excluded by a non-empty name, names are included but not its own, no category of its is wanted though some are, or a distro other than auto is given that it is not for. |
| Registry.ListsUnique | internal/checks/registry.go:76-120 | There is only one such list, so All and Filter are deterministic. |
| Registry.FilterIsPartOfAll | internal/checks/registry.go:100-119 | Filter is the subsequence of All that passes. |
| Registry.EmptyStringsIgnored | internal/checks/registry.go:136-145 | Dropping the empty strings from the include and exclude lists changes no decision. |
| Registry.RegisteredExactly | internal/checks/registry.go:66-74 | A sequence of registrations succeeds if and only if the IDs are distinct, and then stores exactly those checks. |
| Registry.RegistrationOrderIrrelevant | internal/checks/registry.go:66-86 | Any permutation of a sequence of registrations succeeds or panics alike and leaves the same registry. |
| Registry.AppliesToDistro | internal/checks/distro.go:45-56 | A check that names no distributions applies everywhere; any other exactly on those it names. |
| Registry.HasAllExactly | internal/checks/registry.go:43-44 | The mask test holds if and only if adding the wanted flags to those there are adds nothing. |
| Registry.SampleMasks | internal/checks/registry.go:43-44 | With flags 1 and 2 present every combination may be asked for; with 1 alone nothing that needs 2. |
| Registry.AllIsSorted | internal/checks/registry.go:76-86 | All after registering a sequence is that sequence sorted by ID. |
| Registry.RegisterEach | internal/checks/registry.go:66-74 | Registering one by one into a fresh registry, stopping at the first panic. |
| Ingress.CollectIngressBackends | internal/checks/ingresses.go:98-114 | Default backend first, then every path of every rule that has an HTTP section, skipping backends without a service. |
| Ingress.Run | internal/checks/ingresses.go:30-84 | A list error gives one UNKNOWN finding and no lookup; otherwise findings and lookups are those of the cached resolution in visiting order, and an empty result becomes the all-clear. |
| Ingress.CacheInvisibleExactly | internal/checks/ingresses.go:35-84 | The cached check reports what fresh lookups would, in every cluster, if and only if no two consulted (namespace, service) pairs share a cache key. |
| Ingress.PlainNamespacesDistinguish | internal/checks/ingresses.go:41 | Namespaces without a slash guarantee that. |
| Ingress.SlashInNamespaceClashes | internal/checks/ingresses.go:41 | A namespace with a slash can share its key with another pair. |
| Ingress.LookupsAreDistinct | internal/checks/ingresses.go:41-55 | No key is looked up twice and every needed key is. |
| Ingress.AllClearExactly | internal/checks/ingresses.go:56-82 | With fresh lookups nothing is reported if and only if every backend's service exists and has the port asked for, by name, by positive number, or both. |
| Ingress.CheckClearExactly | internal/checks/ingresses.go:30-84 | The check as it runs, with its cache, for namespaces without a slash: its verdict is OK, and its result the single all-clear, if and only if every backend resolves; otherwise all its findings are CRIT. |
| IngressReport.CheckClearOnObjects | internal/checks/ingresses.go:30-114 | On the ingress objects: the verdict is OK, and the result the single all-clear, if and only if the default backend of every ingress and the backend of every path of every rule with an HTTP section resolve, where they name a service; otherwise all findings are CRIT. |
| IngressReport.ComplaintsExactly | internal/checks/ingresses.go:40-79 | If not all is clear, a finding is reported if and only if it is one of the three complaints, with its exact message and resource, about a backend that stands in one of the ingresses. |
| IngressReport.BackendsInOrder | internal/checks/ingresses.go:98-114 | The default backend comes first, and the rules follow in their order. |
| IngressReport.RulePathsInOrder | internal/checks/ingresses.go:107-111 | Within a rule the paths come in their order. |
| IngressReport.FindingsInOrder | internal/checks/ingresses.go:38-79 | The findings come ingress by ingress, in the order of the list. |

## Left out

- Kubernetes, etcd, pod-exec, TLS and Job access, and the other checks under `internal/checks`: behaviour of libraries, or single-loop threshold tests.
- Reading and writing baseline files (`internal/result/baseline.go:19-50`): the decoded findings, or the errors, are inputs.
- ANSI colours, terminal detection, header, heading and summary lines of the renderers, and the JSON and YAML encodings. Those two print the report in arrival order, which `PoolChoice.OneReportExactly` characterises.
- Errors of the output writer and of an unknown output format, which end the command with status 3 as the other tool errors do.
- The lock inside the registry and the Go memory model: each runner step is atomic, and the report has a single writer.
- Invalid UTF-8: a Go string may hold bytes that are no code point.
- The pretty and watch layouts themselves; the order in which the pretty renderer lists findings is covered by `Grouping`.
- Per-check timeouts: they only influence what a check returns, which is arbitrary here.
- PoolOrder.SortedExactly: assumes a list in strictly increasing ID order, which is what the registry delivers, and findings that carry their own check's ID.
- Determinism.OutcomeAgreesExactly: assumes that checks put their own ID on their findings, as all checks of the repository do.
- Ingress.Run: answers come from a fixed snapshot of the cluster, and an error on a lookup counts as absence, as in the code; `%q` and `%d` are parameters.
- Watch.Update: the update of a by-value copy is a new model value; the shared tracker is an object and is updated in place.
- Table.DrawTable: the builders are strings that are extended, and the lines are returned instead of written.
