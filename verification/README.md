# Agent HQ: a verified model of its core algorithms

This project models, in Dafny, the parts of Agent HQ in which an answer is easy to get subtly wrong,
and proves what each promises for all inputs or over all runs. Every step-by-step piece of the source is a
method (or a class with methods) proved equal to a specification function, and the promises are
lemmas about that function.

| module | what it models |
|---|---|
| `GraphLayout`, `GraphLayoutTheorems`, `GraphOrderTheorems` | the workflow canvas: grouping, ordering and lane allocation of arcs |
| `WallClock` | turning a wall-clock reading in a time zone into an instant, or refusing it |
| `ChatMessages`, `ChatMergeTheorems`, `ChatPlaces`, `ChatDedupTheorems`, `ChatLossTheorems`, `ChatRepeatTheorems`, `ChatTextTheorems` | merging polled chat rows, and reconciling them with a snapshot |
| `Transcript`, `TranscriptTheorems`, `TranscriptExact` | grouping tool events into rows and moving run-end groups in place |
| `Decimals`, `DecimalFormats`, `DecimalExact` | two exact decimal formatters, one by big integer, one by digit array |
| `ErrorExtraction`, `ErrorFieldTheorems` | finding a message in a possibly cyclic error object |
| `SessionSync` | mirroring a chat log into session rows by remembered ordinals |
| `LiveRefresh`, `RefreshSteps` | the polling effect as interleaved steps of timers, events, refreshes and cleanup |
| `DashboardEdits`, `DashboardExact` | move, remove, resize and set-columns edits of a dashboard page |
| `CurlSnippet` | printing a request as a shell command, read back by the POSIX quoting rules |
| `OwnedTables`, `DefaultPackage`, `DefaultPackageTheorems`, `DefaultPackageExact` | installing the default package into a tenant's tables |
| `Sequences`, `Arithmetic`, `Wrappers` | stable sorting, counting and quotient facts, and optional values, used above |

## How the model reads the source

- Text is a sequence of characters that stand for UTF-16 code units. `localeCompare` is a parameter, a
  total preorder; results that need it to have no ties say so. Array sorting is a stable sort
  (`Sequences.SortBy`, with `SortStable` and `SortSorted`), and a comparator result that is not a number is a tie.
- A time zone is its offset function in whole seconds; the source counts milliseconds but reads and
  shows whole seconds only. Real zones stay within a day of UTC, which is the bound assumed.
- Object identity of transcript rows is a number on the row; the heap of error objects is a finite map.
- The tables of the default package are sequences of rows, so that two rows of one key, which a null task type
  lets past the unique index, are told apart. A lookup that says `LIMIT 1` without an order may yield any row
  with the key: which one is a parameter, and the results hold for every choice. Lookups that give an order
  follow it. The seed lists and the database's `lower` are parameters.
- The session table is a map from ordinal to row. `DO UPDATE` with a null payload keeps the stored one.

## Where the code differs from what one would expect

- A merge of chat rows can lose a row, because the branch for known ids does not refresh the fingerprint index.
  Of an edit and a later row of the batch that repeats the old text under a new id, the repeat is lost if the
  edited row is stored (`EditThenRepeatIsLost`), and the edit is lost if it is not (`RollingEditIsDisplaced`).
  `TextSurvivesIff` says exactly which texts are left, from what the places of the existing rows hold after the
  batch; `RowIsLostIffEditedAway` and `EditIsLostIffDisplaced` read it for the two cases. An edit to the text of
  a new row leaves that text twice (`EditCanDouble`); `OneRowPerTextIff` says exactly when each text is left once.
- A batch that loses a row brings it back when it is polled again, so merging is idempotent only where nothing is
  lost (`IdempotentOnlyIfNothingLost`). It is idempotent, loses nothing and leaves one row per text for any batch
  whose edits stay apart: nothing else has the new text, and nothing under a new id has the old one
  (`MergeIsIdempotent`, `CleanPollDeduplicates`), as when a reply grows from poll to poll (`GrowingRowIsClean`).
- `reconcileChatMessageSnapshot` compares the merged array with `existing`, but its filter always makes a new
  array, so that early return never happens and the result is always sorted.
- Polling stops for good, until a focus or visibility event, exactly when the refresh that the only timer
  callback awaits rejects (`PollingSurvivesIff`, `RejectionCanStall`, `WindowEventsRevive`).
- Re-ingesting a transcript can store one payload at two ordinals (`ShiftedIngestStoresTwice`) or take an
  ordinal from its owner (`IngestCanEvict`); `IngestKeepsDistinctIff` and `IngestKeepsOwnersIff` give the exact
  conditions, and under them owners keep their ordinals over any run of syncs and ingests.
- The wall-clock solver looks at five instants a day apart. In an arbitrary zone it misses a repeat exactly when
  none of the five has the offset of the other instant (`RepeatIsMissedIff`), and rejects a reading exactly when
  its rounds never land on it (`RejectedIff`). `TwoChangesCanHideARepeat` and `ThreeChangesCanHideAReading` show
  both with artificial zones. Where offsets last at least two days the solver is exact for every reading
  (`ZonesAreSolved`); in the IANA time zone database the closest two changes are about four days apart
  (Africa/Freetown, September 1939).
- The default package updates its tables by key. A tenant's own row can be overwritten exactly when it shares a
  seeded key with a row of the package (`TenantRowsKeptIff`, `TenantRowCanBeTaken`), and under just that
  condition a second application can change a table (`RepeatableIff`, `ApplyRepeatsIff`). Where a unique index
  covers the key neither happens (`UniqueKeysProtect`). Skills are updated by id, which under their unique index
  is the same (`ByKeyIsById`). A tenant's outcome is reported as differing even when it does not
  (`EqualOutcomeIsReported`).
- The canvas is drawn alike for every order of the edges exactly when each group joins one pair of statuses and
  no two groups over the same rows tie in the collation (`LayoutIgnoresEdgeOrderIff`). The keys `from->to`
  that the API forms meet the first half exactly when no status key hides the arrow of another edge
  (`ApiKeysFixEndpointsIff`): "a" to "b->c" and "a->b" to "c" have one key (`ApiKeysCanCollide`).
- Rounding to no places would put all digits behind the point, since `slice(0, -0)` is empty (`RoundDecimalText`);
  the only caller asks for two.
- A resize keeps both columns at least one unit wide exactly when the two together have two units.

## Model

| member | source | states |
|---|---|---|
| GraphLayout.IndexOf | ui/lib/workflowGraphLayout.ts:83 | ids map to the last row that bears them, and every id on the canvas has one |
| GraphLayout.LowestFree | ui/lib/workflowGraphLayout.ts:74-80 | the answer is free and everything below it is taken |
| GraphLayout.LaneCount | ui/lib/workflowGraphLayout.ts:155-156 | one more than the greatest lane in use, 0 if none |
| GraphLayout.AllocateLane | ui/lib/workflowGraphLayout.ts:75-80 | the counting loop finds the lowest lane that no overlapping arc holds |
| GraphLayout.CollectGroups | ui/lib/workflowGraphLayout.ts:93-97 | groups the edges on the canvas by key, keys in order of first occurrence |
| GraphLayout.PlaceArcs | ui/lib/workflowGraphLayout.ts:129-153 | the lane pass with its two placed lists |
| GraphLayout.ComputeGraphLayout | ui/lib/workflowGraphLayout.ts:82-165 | the whole computation equals the specified layout |
| GraphLayoutTheorems.NoTwoClashingArcsShareALane | ui/lib/workflowGraphLayout.ts:67-80 | gutter arcs of one side whose inclusive spans overlap have different lanes |
| GraphLayoutTheorems.LaneCountIsMaximumDepth | ui/lib/workflowGraphLayout.ts:117-156 | a side's lane count is the greatest number of its gutter arcs over one row, and that row is exhibited |
| GraphLayoutTheorems.NoColouringUsesFewerLanes | ui/lib/workflowGraphLayout.ts:74-80 | any other assignment that keeps clashing arcs apart needs at least as many lanes |
| GraphLayoutTheorems.ArcsPartitionKnownEdges | ui/lib/workflowGraphLayout.ts:90-115 | an arc lists exactly its group's ids, every edge on the canvas has an arc, no two arcs share a key |
| GraphLayoutTheorems.NoIdOnTwoArcs | ui/lib/workflowGraphLayout.ts:93-113 | with unique edge ids no id is on two arcs |
| GraphLayoutTheorems.ArcsAreFaithful | ui/lib/workflowGraphLayout.ts:99-153 | endpoints, rows, side, self loop, adjacent hop, badge with multiplicity, and the order of the arcs |
| GraphLayoutTheorems.CanvasIsDrawn | ui/lib/workflowGraphLayout.ts:82-165 | one box per status, 78 apart from 29 down, in the order given; arcs end at the boxes of their two ids; the canvas ends 29 below the last box |
| GraphLayoutTheorems.KnownIsListed | ui/lib/workflowGraphLayout.ts:93-97 | an edge counts as often as it is listed, if both its ends are statuses of the canvas, and else not |
| GraphLayoutTheorems.ClashMeansSharedRow | ui/lib/workflowGraphLayout.ts:67-72 | two arcs clash iff both run in the gutter of one side and some row lies on both |
| GraphLayoutTheorems.LanesAreLowest | ui/lib/workflowGraphLayout.ts:74-80 | each lane below that of an arc is held by an earlier arc that clashes with it |
| GraphLayoutTheorems.ArcsComeInOrder | ui/lib/workflowGraphLayout.ts:115-127 | arcs come by upper row, then length, then key |
| GraphLayoutTheorems.ArcsFollowEdges | ui/lib/workflowGraphLayout.ts:93-127 | an arc joins the statuses of the first edge of its group, and tying groups come by their first edges |
| Sequences.TextLeIsCodeUnitOrder | ui/lib/workflowGraphLayout.ts:113 | ids are sorted by the first code unit in which they differ, a prefix first |
| GraphOrderTheorems.LayoutIgnoresEdgeOrderIff | ui/lib/workflowGraphLayout.ts:99-127 | every permutation of the edges gives the same layout iff, on the canvas, groups fix their endpoints and no two groups over the same rows tie |
| GraphOrderTheorems.ApiKeysFixEndpointsIff | api/src/domains/routing/graph.ts:484-526 | keys of the form the API builds determine both endpoints iff no key reads as that of another edge at another arrow |
| GraphOrderTheorems.ApiKeysCanCollide | api/src/domains/routing/graph.ts:484-526 | two edges with different endpoints and one key |
| GraphOrderTheorems.MixedGroupShowsOrder | ui/lib/workflowGraphLayout.ts:99-105 | of two edges of one group with different endpoints, whichever comes first is drawn |
| GraphOrderTheorems.TiedGroupsShowOrder | ui/lib/workflowGraphLayout.ts:117-127 | of two tying groups over the same rows, whichever comes first gets the first arc |
| GraphOrderTheorems.EdgeOrderMattersInMixedGroups | ui/lib/workflowGraphLayout.ts:99-105 | the smallest mixed group, one edge up and one down, is not free of order |
| WallClock.TelemetryUtcBoundary | ui/lib/telemetryBuilder.ts:184-190 | the four-round loop and the five samples compute the specified verdict |
| WallClock.AnswersAreSound | ui/lib/telemetryBuilder.ts:186-190 | in any zone an instant returned shows the reading, and "occurs twice" has two instants that do |
| WallClock.VerdictAtTransition | ui/lib/telemetryBuilder.ts:184-190 | the verdict read off one offset change: skipped, repeated, before or after it |
| WallClock.SolverIsExact | ui/lib/telemetryBuilder.ts:182-190 | with one change within a day whose offsets last two days: missing iff no instant shows the reading, twice iff two do, else the only one |
| WallClock.ZonesAreSolved | ui/lib/telemetryBuilder.ts:182-190 | in a zone whose offsets last two days every reading gets the right verdict |
| WallClock.RepeatIsSeenIff | ui/lib/telemetryBuilder.ts:187-189 | in any zone, a reading found is called ambiguous iff another instant of it has the offset of a sample |
| WallClock.RepeatIsMissedIff | ui/lib/telemetryBuilder.ts:187-190 | in any zone, a repeat is missed iff no other instant of the reading has the offset of a sample |
| WallClock.RejectedIff | ui/lib/telemetryBuilder.ts:184-186 | in any zone, a reading is rejected iff no approximation shows it, that is, iff the last round changes the offset |
| WallClock.FiveSamples | ui/lib/telemetryBuilder.ts:187 | the samples are the offsets two days and one day before, at, and one and two days after the approximation |
| WallClock.TwoChangesCanHideARepeat | ui/lib/telemetryBuilder.ts:187-189 | an artificial zone whose repeat lies between two samples |
| WallClock.ThreeChangesCanHideAReading | ui/lib/telemetryBuilder.ts:184-186 | an artificial zone in which a reading that occurs is rejected |
| ChatMessages.MergeChatMessages | ui/lib/chatMessages.ts:141-189 | the loop over two index maps computes the specified merge |
| ChatMergeTheorems.RunIndexesIds | ui/lib/chatMessages.ts:143-185 | from distinct ids the id index inverts the positions after every row |
| ChatMergeTheorems.MergeKeepsStoredRows | ui/lib/chatMessages.ts:141-189 | ids stay distinct, no row is invented, no stored row is dropped, for any batch |
| ChatMergeTheorems.MergeDeliversUpdates | ui/lib/chatMessages.ts:153-166 | the incoming version of a stored row is in the result |
| ChatMergeTheorems.ChangedMergeIsChronological | ui/lib/chatMessages.ts:42-91 | rows ascend in time, undated rows last, tool events before the text of one instant |
| ChatMergeTheorems.ReconcileDropsStaleRollingRows | ui/lib/chatMessages.ts:191-200 | every rolling row left is in the snapshot, and stored rows survive |
| ChatDedupTheorems.StepKeepsPrintIndexIff | ui/lib/chatMessages.ts:153-182 | the fingerprint index stays exact iff a known id keeps its fingerprint |
| ChatPlaces.RunTracked | ui/lib/chatMessages.ts:141-189 | the merged rows are the places of the existing rows, as a fold without index maps has them, and a place for each new text that arrives |
| ChatLossTheorems.TextSurvivesIff | ui/lib/chatMessages.ts:141-189 | a text is left iff a place of an existing row holds it, or it is new and arrives under an id that no place holds |
| ChatLossTheorems.RowIsLostIffShadowed | ui/lib/chatMessages.ts:153-182 | in one step, from any state, the arriving text is absent iff a stale entry shadows it, and any other text is lost iff its only row is ousted |
| ChatLossTheorems.RowIsLostIffEditedAway | ui/lib/chatMessages.ts:141-189 | where rows that are not stored keep their text, an incoming row is lost iff it is new, repeats an existing text, and no existing row has that text once the batch is in |
| ChatLossTheorems.EditIsLostIffDisplaced | ui/lib/chatMessages.ts:153-178 | an edit of an optimistic or rolling row to a text of its own is lost iff a later row under a new id repeats the text from before it |
| ChatLossTheorems.RollingEditIsDisplaced | ui/lib/chatMessages.ts:153-178 | the two-row batch that loses the edit of a rolling row |
| ChatLossTheorems.OneRowPerTextIff | ui/lib/chatMessages.ts:141-189 | each text is left once iff the places of the existing rows differ and none holds a text that got a place of its own |
| ChatLossTheorems.EditCanDouble | ui/lib/chatMessages.ts:153-182 | the two-row batch that leaves one text twice |
| ChatLossTheorems.UndatedRowsKeepOrder | ui/lib/chatMessages.ts:42-91 | undated rows in the places of existing rows keep their order through a merge, ahead of undated rows it adds |
| ChatLossTheorems.EditThenRepeatIsLost | ui/lib/chatMessages.ts:153-179 | the two-row batch that loses a message |
| ChatDedupTheorems.MergeDeduplicates | ui/lib/chatMessages.ts:141-189 | where recurring ids keep their text: one row per fingerprint, and every incoming row represented by one at least as final |
| ChatRepeatTheorems.CleanPollDeduplicates | ui/lib/chatMessages.ts:141-189 | the same where ids may change their text, as long as edits stay apart |
| ChatRepeatTheorems.NoEditsAreClean | ui/lib/chatMessages.ts:141-189 | a batch in which recurring ids keep their text is one whose edits stay apart |
| ChatRepeatTheorems.GrowingRowIsClean | ui/lib/chatMessages.ts:141-189 | one row that grows to a text of its own makes such a batch |
| ChatRepeatTheorems.MergeIsIdempotent | ui/lib/chatMessages.ts:141-189 | merging a batch whose edits stay apart again returns the same sequence |
| ChatRepeatTheorems.IdempotentOnlyIfNothingLost | ui/lib/chatMessages.ts:141-189 | a merge that loses a text is not idempotent |
| ChatRepeatTheorems.ReconcileIsIdempotent | ui/lib/chatMessages.ts:191-200 | reconciling with such a snapshot again returns the same sequence |
| ChatTextTheorems.SamePrintIff | ui/lib/chatMessages.ts:124-131 | rows of one fingerprint have one role and one kind; without separators in the metadata they share it iff role, kind, content and metadata agree |
| ChatTextTheorems.NewRowIsKept | ui/lib/chatMessages.ts:141-189 | an incoming row under a new id is in the result if it differs in role, kind, content or metadata from every other row |
| ChatTextTheorems.EchoIsReplaced | ui/lib/chatMessages.ts:133-179 | a row whose id does not begin with user- or stream- takes the place of the one user-, stream- or oc-stream- row it repeats |
| ChatTextTheorems.RepeatIsDropped | ui/lib/chatMessages.ts:133-179 | a repeat of a stored row, or an optimistic repeat of any, changes nothing |
| ChatTextTheorems.OrderIsWorkOrder | ui/lib/chatMessages.ts:42-91 | the comparator is: time, undated last, then turn start, thought, tool call, tool result, text, turn end, system, error, then id |
| ChatTextTheorems.RowsAreShownInOrder | ui/lib/chatMessages.ts:42-91 | a merge that changes anything and every reconciliation show their rows in that order |
| ChatTextTheorems.StaleRowsAreDropped | ui/lib/chatMessages.ts:191-196 | the snapshot is merged into the rows that are not rolling or whose id it brings again |
| ChatTextTheorems.ReconcileKeepsOthers | ui/lib/chatMessages.ts:191-200 | a row that the snapshot neither updates nor repeats is kept as it was iff its id does not begin with oc-stream- |
| Transcript.GroupRows | ui/lib/chatMessages.ts:323-341 | the first loop renders the gaps between messages as rows |
| Transcript.BuildTranscriptRows | ui/lib/chatMessages.ts:323-370 | the backward loop of splices renders the settled gaps |
| TranscriptTheorems.RowsKeepBothOrders | ui/lib/chatMessages.ts:323-370 | every message once; ordinary messages and events each keep their order |
| TranscriptTheorems.NoDanglingRunEnd | ui/lib/chatMessages.ts:343-367 | no two groups adjoin, and a bare run-end group is last only in a transcript with no message |
| TranscriptTheorems.ToolsNeverMove | ui/lib/chatMessages.ts:351-367 | tool events stay between the two messages they came between |
| TranscriptTheorems.RunEndGoesAheadOfItsReply | ui/lib/chatMessages.ts:343-367 | markers that alone follow a reply are all shown before it |
| TranscriptExact.SplitIsTranscript | ui/lib/chatMessages.ts:277-341 | the transcript is its messages and gaps in turn, and the gaps hold exactly tool calls, tool results and run-end markers |
| TranscriptExact.GapsAreFinal | ui/lib/chatMessages.ts:343-367 | what every gap holds in the end: nothing if it held markers only and a message precedes it, else its own events and then the markers of the stretch of such gaps right behind it |
| TranscriptExact.RunEndStopsAheadOfItsReply | ui/lib/chatMessages.ts:347-367 | a whole stretch of gaps that hold markers only stops in the gap before it, behind what is there, and leaves its own gaps empty |
| TranscriptExact.OtherGapsStay | ui/lib/chatMessages.ts:352-367 | a gap that is no such stretch and has none behind it holds what it held |
| TranscriptExact.RowsShowFinalGaps | ui/lib/chatMessages.ts:323-370 | rows show the messages and final gaps in turn, each gap as one group, named after their first event or message |
| Decimals.ParseIsExact | ui/lib/dashboardLayout.ts:70 | the pattern accepts exactly the texts of decimals and captures their parts |
| Decimals.RoundByNextDigit | ui/lib/dashboardLayout.ts:75-77 | cutting digits and looking at the next one is rounding half up |
| Decimals.CanonicalIsNatText | ui/lib/telemetryPresentation.ts:38 | digits without leading zeros are the text of their value |
| DecimalFormats.FormatDashboardValue | ui/lib/dashboardLayout.ts:67-82 | the big-integer form shows the exactly rounded number, grouped, no sign on zero |
| DecimalFormats.CarryOne | ui/lib/telemetryPresentation.ts:33-34 | the in-place carry loop adds one to the digits, reporting what is carried out |
| DecimalFormats.RoundDecimalText | ui/lib/telemetryPresentation.ts:27-42 | the digit-array form shows the same rounded number, ungrouped; with no places all digits go behind the point |
| DecimalFormats.ShiftedTarget | ui/lib/telemetryPresentation.ts:44-51 | shifting the text two places and rounding is rounding a hundred times the number |
| DecimalFormats.FormatTelemetryPercent | ui/lib/telemetryPresentation.ts:14-15 | a percentage shows the exactly rounded number; other text is passed on |
| DecimalFormats.PercentFormsAgree | ui/lib/dashboardLayout.ts:67-82 | for every text the two percent forms agree once separators are removed |
| DecimalFormats.TargetIsNearest | ui/lib/dashboardLayout.ts:72-77 | the rounded units are within half a unit of the exact number, halves up |
| DecimalFormats.ShownReadsBack | ui/lib/dashboardLayout.ts:78-81 | the text parses to exactly those units, with a sign only if they are not zero |
| DecimalFormats.GroupsOfThree | ui/lib/dashboardLayout.ts:79 | a comma before each last three digits of more than three |
| DecimalExact.DashboardShowsNearest | ui/lib/dashboardLayout.ts:66-82 | the text is sign, grouped integer, fraction and percent sign of the nearest number with at most the given places, within 0 and 6, a hundredfold for percentages |
| DecimalExact.TelemetryShowsNearest | ui/lib/telemetryPresentation.ts:27-51 | the text is that of the nearest number of at most two places to a hundred times the number |
| DecimalExact.NearestIsOne | ui/lib/dashboardLayout.ts:74-81 | only one number without superfluous zeros is the nearest |
| DecimalExact.OtherTextIsPassedOn | ui/lib/telemetryPresentation.ts:28-29 | text that no decimal has: the dashboard answers none, telemetry the text with a percent sign |
| ErrorExtraction.TrimSpec | api/src/lib/chatGatewayErrors.ts:1-8 | trimming empties exactly blank text and otherwise leaves no white space at the ends |
| ErrorExtraction.Search | api/src/lib/chatGatewayErrors.ts:52-99 | terminates on any finite graph, and only adds objects of the heap to the visited ones |
| ErrorExtraction.Extractor.Visit | api/src/lib/chatGatewayErrors.ts:52-99 | the recursive search with its shared set equals the specification |
| ErrorExtraction.ExtractGatewayErrorMessage | api/src/lib/chatGatewayErrors.ts:48-50 | the entry point starts from no visited object |
| ErrorExtraction.ExtractionIsExact | api/src/lib/chatGatewayErrors.ts:48-99 | null iff no position below offers a message; else a trimmed, non-empty message that one offers |
| ErrorExtraction.DirectFieldWins | api/src/lib/chatGatewayErrors.ts:75-82 | at any depth, a record with a direct field that the search gets to ends it, with that field's text |
| ErrorExtraction.FallbackSpeaksLast | api/src/lib/chatGatewayErrors.ts:93-98 | reason and stopReason answer iff nothing else below offers a message |
| ErrorExtraction.SeenSetIsInvisible | api/src/lib/chatGatewayErrors.ts:61-64 | where the search without a visited set ends, both answer the same |
| ErrorFieldTheorems.SpaceIsWhite | api/src/lib/chatGatewayErrors.ts:3-4 | the white space that trimming takes off, character by character |
| ErrorFieldTheorems.TrimIsExact | api/src/lib/chatGatewayErrors.ts:3-4 | trimming takes white space off both ends and nothing else |
| ErrorFieldTheorems.AnswerIsSaid | api/src/lib/chatGatewayErrors.ts:48-99 | null iff nothing reached through list entries and the fields error, message, data, payload, details, reasonDetail and cause says anything in its text, five direct or two fallback fields |
| ErrorFieldTheorems.DirectFieldsInOrder | api/src/lib/chatGatewayErrors.ts:75-82 | errorMessage, error, summary, details, reasonDetail: the first that is not blank answers |
| ErrorFieldTheorems.NestedFieldsInOrder | api/src/lib/chatGatewayErrors.ts:84-96 | where no direct field speaks, the first of the seven nested fields that finds a message by itself answers, whatever was seen before |
| ErrorFieldTheorems.FallbackInOrder | api/src/lib/chatGatewayErrors.ts:98 | reason before stopReason, if nothing else reached says anything |
| ErrorFieldTheorems.FirstChildAnswers | api/src/lib/chatGatewayErrors.ts:67-72 | of the entries of a list the first that finds a message by itself answers |
| SessionSync.SessionMessages.SyncFromChat | api/src/lib/canonicalSessions.ts:285-353 | the table becomes a sync of the log and the count is the table size, untouched for an empty log |
| SessionSync.SessionMessages.IngestTranscript | api/src/lib/canonicalSessions.ts:449-478 | upserts the messages at ordinals from 0 |
| SessionSync.SyncMirrorsLog | api/src/lib/canonicalSessions.ts:302-349 | every log row mirrored at one ordinal, owners keep theirs, other rows untouched, new ordinals above old |
| SessionSync.SyncStoresLog | api/src/lib/canonicalSessions.ts:302-349 | each log row has an ordinal whose row has its role or system, its event type or text, its content or nothing, its metadata or the backfill text, its id and time; from any table |
| SessionSync.NewRowsFollowLog | api/src/lib/canonicalSessions.ts:312-349 | new rows are numbered in the order of the log, from one above the greatest ordinal, without gaps |
| SessionSync.SyncIsIdempotent | api/src/lib/canonicalSessions.ts:285-353 | syncing the same log again changes no row |
| SessionSync.OrdinalsNeverChange | api/src/lib/canonicalSessions.ts:449-486 | over any run of syncs and clean ingests an owner keeps its one ordinal |
| SessionSync.OtherRowsNeverChange | api/src/lib/canonicalSessions.ts:302-349 | over any such run, rows that no log holds and no transcript reaches stay as they are |
| SessionSync.SeenRowsStayMirrored | api/src/lib/canonicalSessions.ts:449-486 | a log row once seen is owned by exactly one ordinal ever after, through syncs and clean ingests |
| SessionSync.IngestKeepsDistinctIff | api/src/lib/canonicalSessions.ts:449-464 | ingest keeps payloads distinct iff none it brings is brought for, or kept at, another ordinal |
| SessionSync.IngestKeepsOwnersIff | api/src/lib/canonicalSessions.ts:449-464 | no owner loses its ordinal iff at each ordinal nothing is brought, nothing was stored, or both agree |
| SessionSync.CleanReadIff | api/src/lib/canonicalSessions.ts:449-464 | an ingest keeps payloads distinct and every owner in place iff it is clean |
| SessionSync.ShiftedIngestStoresTwice | api/src/lib/canonicalSessions.ts:449-464 | a transcript that lost its first message stores a payload twice |
| SessionSync.IngestCanEvict | api/src/lib/canonicalSessions.ts:449-464 | a transcript that begins with another message takes an owner's ordinal |
| LiveRefresh.Poller.ClearTimeout | ui/lib/useLiveRefresh.ts:36-41 | clears the timer the ref holds |
| LiveRefresh.Poller.Refresh | ui/lib/useLiveRefresh.ts:43-51 | starts a refresh unless cancelled or running |
| LiveRefresh.Poller.Schedule | ui/lib/useLiveRefresh.ts:53-61 | replaces the timer, with the delay for the visibility |
| LiveRefresh.Poller.OnTimer | ui/lib/useLiveRefresh.ts:57-60 | a fired timer is gone and its callback awaits a refresh; the invariant is kept |
| LiveRefresh.Poller.OnResume | ui/lib/useLiveRefresh.ts:59 | the resumed callback schedules the next timer; the invariant is kept |
| LiveRefresh.Poller.OnFocus | ui/lib/useLiveRefresh.ts:63-68 | focus refreshes if asked to and reschedules; the invariant is kept |
| LiveRefresh.Poller.OnVisibilityChange | ui/lib/useLiveRefresh.ts:70-75 | a change to visible refreshes if asked to; either change reschedules; the invariant is kept |
| LiveRefresh.Poller.OnRefreshEnd | ui/lib/useLiveRefresh.ts:46-50 | an ended refresh frees the flag; its callback resumes unless it rejected; the invariant is kept |
| LiveRefresh.Poller.OnSetUp | ui/lib/useLiveRefresh.ts:31-79 | a new instance schedules its first timer; the invariant is kept |
| LiveRefresh.Poller.OnCleanUp | ui/lib/useLiveRefresh.ts:81-86 | cleanup cancels the instance and its timer; the invariant is kept |
| LiveRefresh.StepKeepsInvariant | ui/lib/useLiveRefresh.ts:31-87 | every step keeps one flight, one timer, timers of the mounted instance with the current delay |
| LiveRefresh.AtMostOneOfEach | ui/lib/useLiveRefresh.ts:36-61 | in every interleaving at most one refresh in flight, one live timer, none while unmounted |
| LiveRefresh.CancelledForGood | ui/lib/useLiveRefresh.ts:44-54 | after its cleanup an instance starts no refresh and no timer |
| LiveRefresh.PollingSurvivesIff | ui/lib/useLiveRefresh.ts:57-60 | a step ends polling iff it rejects the refresh that the only polling callback awaits |
| LiveRefresh.PollingNeverStops | ui/lib/useLiveRefresh.ts:53-79 | in a run without that, a timer is live or a callback will set one whenever mounted |
| LiveRefresh.RejectionCanStall | ui/lib/useLiveRefresh.ts:57-60 | three steps from set-up to a stalled effect |
| LiveRefresh.WindowEventsRevive | ui/lib/useLiveRefresh.ts:63-75 | a focus or visibility event restores polling |
| RefreshSteps.SetUpArms | ui/lib/useLiveRefresh.ts:31-79 | set-up arms one timer of a new instance, with the interval for a shown or a hidden page, and starts no refresh |
| RefreshSteps.CleanUpDisarms | ui/lib/useLiveRefresh.ts:81-86 | cleanup leaves no timer, and a refresh in flight as it is |
| RefreshSteps.FireRefreshes | ui/lib/useLiveRefresh.ts:43-60 | a timer that fires starts a refresh and awaits it, or resumes at once if one is running |
| RefreshSteps.ResumeArms | ui/lib/useLiveRefresh.ts:53-60 | a callback that resumes arms the next timer unless its instance was cancelled |
| RefreshSteps.FocusRefreshes | ui/lib/useLiveRefresh.ts:63-68 | focus starts a refresh iff that option is set and none is running, and arms the timer anew |
| RefreshSteps.VisibleRefreshes | ui/lib/useLiveRefresh.ts:70-75 | a visibility event does so iff the page is shown now and that option is set |
| RefreshSteps.EndResumes | ui/lib/useLiveRefresh.ts:43-60 | a refresh that ends leaves none in flight; whoever awaits it resumes iff it did not reject |
| DashboardEdits.DealColumns | ui/lib/dashboardLayout.ts:12-16 | the dealing loop equals the specified columns |
| DashboardEdits.DealtAt | ui/lib/dashboardLayout.ts:14 | block k is in column k mod count at place k div count |
| DashboardEdits.DealtKeepsBlocks | ui/lib/dashboardLayout.ts:12-16 | dealing loses and invents no block |
| DashboardEdits.DealtWidth | ui/lib/dashboardLayout.ts:13 | the columns share twelve units |
| DashboardEdits.MoveOnlyMoves | ui/lib/dashboardLayout.ts:45-54 | apart from the moved block, before and after are the same page, and no block is lost |
| DashboardEdits.MoveLands | ui/lib/dashboardLayout.ts:50-52 | the block stands in the target column directly before the named block, or last |
| DashboardEdits.RemoveIsExact | ui/lib/dashboardLayout.ts:39-43 | takes out the block and exactly the metrics no remaining block uses |
| DashboardEdits.ResizeKeepsTotal | ui/lib/dashboardLayout.ts:55-62 | the section total and all else stay; both columns keep a unit iff they had two together |
| DashboardEdits.EditKeepsSound | ui/lib/dashboardLayout.ts:39-65 | each edit keeps ids unique and bindings present, and only a removal takes its own blocks |
| DashboardEdits.RunKeepsSound | ui/lib/dashboardLayout.ts:39-65 | over any run the blocks at the end are those at the start that no edit removed |
| DashboardExact.BlocksInOrder | ui/lib/dashboardLayout.ts:34 | blocks are read column by column, each from the top |
| DashboardExact.RemoveLeaves | ui/lib/dashboardLayout.ts:39-43 | all sections, columns and other blocks stay in place, and the metrics left are those a block left shows |
| DashboardExact.MoveLeaves | ui/lib/dashboardLayout.ts:45-54 | but for the block, both pages have the same blocks in the same columns; a move without block or target, or before itself, changes nothing |
| DashboardExact.ResizeLeaves | ui/lib/dashboardLayout.ts:55-62 | the left column gets the rounded width within its bounds, the right one the rest, in the first section of that id; all else stays |
| DashboardExact.ResizeRefused | ui/lib/dashboardLayout.ts:56-57 | without such a section or a right neighbour nothing changes |
| DashboardExact.SetColumnsLeaves | ui/lib/dashboardLayout.ts:63-65 | each section of that id gets its blocks dealt to columns of equal width with the new ids, and every other section stays |
| CurlSnippet.BuildCurlSnippet | ui/lib/apiTryIt.ts:146-160 | the joined lines are the specified text |
| CurlSnippet.QuoteReads | ui/lib/apiTryIt.ts:142-144 | reading a quoted value adds exactly the value to the word |
| CurlSnippet.SnippetRoundTrips | ui/lib/apiTryIt.ts:142-160 | the shell reads back method, URL, each header and the body, one argument each |
| CurlSnippet.SnippetSays | ui/lib/apiTryIt.ts:146-160 | the words read are curl, --request, method, URL, for header i --header and its key, colon, blank, value, then --data-raw and the body unless it is empty |
| CurlSnippet.HeaderIsWritten | ui/lib/apiTryIt.ts:151-153 | one more header is one more continued line, quoted as a whole |
| CurlSnippet.BodyIsWritten | ui/lib/apiTryIt.ts:155-159 | a body that is not empty is the last line |
| CurlSnippet.EscapeAppend | ui/lib/apiTryIt.ts:142-144 | escaping goes character by character |
| DefaultPackage.EnsureOwned | api/src/lib/defaultInstallPackage.ts:261-288 | the loop over owned rows computes the specified table, counts and conflicts |
| DefaultPackage.EnsureRows | api/src/lib/defaultInstallPackage.ts:710-715 | the loop over insert-if-absent rows computes the specified table and count |
| OwnedTables.PutAllSettles | api/src/lib/defaultInstallPackage.ts:332-343 | where no seeded key is contested, what becomes of each row, whichever row the database yields |
| DefaultPackageTheorems.ClashesTwice | api/src/lib/defaultInstallPackage.ts:273-282 | the same conflicts are reported again, whichever rows the database yields |
| DefaultPackageTheorems.UniqueKeysAgree | api/src/lib/defaultInstallPackage.ts:250-286 | a table with unique keys meets the conditions of the results on repetition |
| DefaultPackageTheorems.EqualOutcomeIsReported | api/src/lib/defaultInstallPackage.ts:434-436 | a tenant's outcome equal to its seed is reported as a conflict |
| DefaultPackage.Installer.EnsureProject | api/src/lib/defaultInstallPackage.ts:467-500 | found by name, else the legacy project renamed, else inserted |
| DefaultPackage.Installer.EnsureStarterWorkflows | api/src/lib/defaultInstallPackage.ts:537-553 | one workflow for each starter type, found by type or inserted, mapped by type |
| DefaultPackage.Installer.EnsureAgents | api/src/lib/defaultInstallPackage.ts:849-855 | each seed's agent completed or inserted, and its capability policies added |
| DefaultPackage.Installer.ApplyPackage | api/src/lib/defaultInstallPackage.ts:831-864 | the whole application in order, with its report |
| OwnedTables.RepeatableIff | api/src/lib/defaultInstallPackage.ts:332-389 | putting the same seeds again changes no row, for all rows the database may yield, iff no seeded key is contested |
| OwnedTables.TenantRowsKeptIff | api/src/lib/defaultInstallPackage.ts:353-389 | a tenant's rows survive, for all rows the database may yield, iff none shares a seeded key with a package row |
| OwnedTables.UniqueKeysProtect | api/src/lib/defaultInstallPackage.ts:312-346 | with unique keys no tenant row is altered and keys stay unique |
| OwnedTables.ByKeyIsById | api/src/lib/defaultInstallPackage.ts:255-285 | with unique keys, updating by key is updating the row that was found |
| OwnedTables.TenantRowCanBeTaken | api/src/lib/defaultInstallPackage.ts:353-374 | the two-row tables whose tenant row is overwritten, behind the package's row or ahead of it |
| OwnedTables.SeedsAreHeld | api/src/lib/defaultInstallPackage.ts:332-343 | each row of a seeded key is the tenant's as it was, or the package's with the last seed |
| DefaultPackageTheorems.AddAllTwice | api/src/lib/defaultInstallPackage.ts:710-715 | adding the same rows again adds none |
| DefaultPackageTheorems.ProjectTwice | api/src/lib/defaultInstallPackage.ts:467-500 | the project found again is the one answered, with nothing to report |
| DefaultPackageTheorems.BacklogSurvives | api/src/lib/defaultInstallPackage.ts:502-522 | the starter workflows never displace the backlog that was chosen before them |
| DefaultPackageTheorems.StarterSurvives | api/src/lib/defaultInstallPackage.ts:537-553 | a type finds afterwards the workflow it was given, whatever was inserted later |
| DefaultPackageTheorems.AgentSurvives | api/src/lib/defaultInstallPackage.ts:558-629 | a seed finds afterwards the agent it was given, with nothing left to fill in, whatever later seeds did |
| DefaultPackageTheorems.SecondApplicationChangesNothing | api/src/lib/defaultInstallPackage.ts:831-864 | without contested keys a second application changes no table and creates nothing, and reports the same conflicts where a tenant's rows of one key agree |
| DefaultPackageTheorems.ApplyRepeatsIff | api/src/lib/defaultInstallPackage.ts:831-864 | contested keys are exactly what can make a second application change a table |
| DefaultPackageTheorems.ApplyLeavesAlone | api/src/lib/defaultInstallPackage.ts:831-864 | rows of other tenants stay, values an operator set on an agent stay, added tables only grow at the end |
| DefaultPackageTheorems.CreatedIsGrowth | api/src/lib/defaultInstallPackage.ts:210-212 | for each kind the created count is what the table grew by |
| DefaultPackageTheorems.EveryTaskTypeIsReviewed | api/src/lib/defaultInstallPackage.ts:680-687 | each task type of each starter is routed in review to the agent the review seed finds |
| DefaultPackageExact.TrimIsExact | api/src/lib/defaultInstallPackage.ts:487 | the database trims spaces off both ends and nothing else |
| DefaultPackageExact.ProjectIsPut | api/src/lib/defaultInstallPackage.ts:467-500 | the first project called so stays; else the first with the former name is renamed and gets a description if it has none; else one is added with these texts |
| DefaultPackageExact.BacklogLookup | api/src/lib/defaultInstallPackage.ts:502-509 | of the workflows with the name or the type generic, the one with the name, and then the first |
| DefaultPackageExact.StarterLookup | api/src/lib/defaultInstallPackage.ts:525-546 | of the workflows with the type, the one with the name of the starter, and then the first |
| DefaultPackageExact.AgentLookup | api/src/lib/defaultInstallPackage.ts:569-577 | of the agents that share part, session, runtime or name, the one with the part, and then the first |
| DefaultPackageExact.AgentIsPut | api/src/lib/defaultInstallPackage.ts:585-629 | column by column: what is null or blank gets the value of the seed, all else stays; a new agent has them all |
| DefaultPackageExact.AddAllIsExact | api/src/lib/defaultInstallPackage.ts:710-715 | of the rows in turn, those are added whose key neither the table nor an earlier row has |
| DefaultPackageExact.TaskTypesAfter | api/src/lib/defaultInstallPackage.ts:381-399 | the task types added are those of the seeds, each has its row |
| DefaultPackageExact.RoutingAfter | api/src/lib/defaultInstallPackage.ts:657-716 | the rules added are: ready work by type and task type, review for each task type of each starter, and merging for development, each to the agent its seed finds |
| DefaultPackageExact.ModelsAfter | api/src/lib/defaultInstallPackage.ts:764-821 | the models added are the three for 2, 5 and 13 points |
| DefaultPackageExact.TransitionsAfter | api/src/lib/defaultInstallPackage.ts:718-762 | the transitions added are those of the policy of each starter type, for the workflow that stands for it |
| DefaultPackageExact.WorkflowsAfter | api/src/lib/defaultInstallPackage.ts:502-556 | a missing backlog is added first; each workflow added has the name and type of a starter that had none before; afterwards each starter type has one |
| DefaultPackageExact.CapabilitiesAfter | api/src/lib/defaultInstallPackage.ts:631-644 | the agent of each seed has a policy for each capability, on iff the seed asks for it |
| DefaultPackageExact.UpdatesAreCounted | api/src/lib/defaultInstallPackage.ts:261-345 | updated skills are those of the package that differ, updated types, schemas and outcomes all of the package |
| DefaultPackageExact.RestoredAreCounted | api/src/lib/defaultInstallPackage.ts:485-606 | restored are a renamed project and each starter agent that was not added |
| DefaultPackageExact.ConflictsAreReported | api/src/lib/defaultInstallPackage.ts:273-436 | reported are the seeds whose key a tenant row has, with another value or, for outcomes, in any case |

## Left out

- GraphLayout: SVG path strings (`arcPath`) are rendering only.
- WallClock: calendar parsing, the explicit-offset form of the input, and the formatter behind `wallAt` are library behaviour.
- SolverIsExact: assumes one offset change near the reading; RepeatIsMissedIff and RejectedIff say without it what the code gets wrong.
- RowIsLostIffEditedAway: where rows that are not stored keep their text; TextSurvivesIff has no such condition.
- TextSurvivesIff: the ids of the existing rows are distinct, and so are those of the batch, as both come from tables keyed by id.
- ChatMessages: metadata is its canonical text, so two metadata values with one canonical text are not told apart; parsing of stored rows is not modelled.
- MergeDeduplicates: asks that a recurring id keep its fingerprint; CleanPollDeduplicates and OneRowPerTextIff go beyond that.
- MergeIsIdempotent: for batches whose edits stay apart; IdempotentOnlyIfNothingLost gives a condition that is needed in any case.
- FormatTelemetryPercent: numbers that are not decimal text go to `Intl.NumberFormat`, which is not modelled.
- FormatDashboardValue: a missing value, which shows as a dash, and the choice between number and decimal scalars are left to the caller; precision is an integer.
- ErrorExtraction: the summary texts built from the message (`summarizeGatewayErrorForUi`) are a lookup table.
- SessionSync: creating the session row, the failure placeholder and time columns are not modelled; one session at a time, as the key includes it.
- LiveRefresh: a visibility change and its event are one step; time itself is not modelled, only which timers are live.
- SnippetRoundTrips: for methods that are plain words; `toUpperCase` and the header map's iteration order are inputs.
- DashboardEdits: `updateDashboardBlock` applies a function of the caller's; in-place edits of the cloned page are modelled on values, as the clone is never shared; floating-point rounding of widths is not modelled.
- NewRowIsKept: asks that metadata hold no unit separator, which its JSON text escapes.
- NestedFieldsInOrder: the field finds its message without coming back to the record; what fields that do come back answer is left to AnswerIsSaid and SeenSetIsInvisible.
- SnippetSays: for methods that are plain words, which those of letters and hyphens are (`LettersArePlain`), and text without NUL.
- UpdatesAreCounted: where keys are unique and none is seeded twice; otherwise the count depends on the rows the database yields.
- ConflictsAreReported: where no key is contested and the tenant's rows of one key agree; otherwise it depends on them too.
- SecondApplicationChangesNothing: asks, beside uncontested keys, that no two agent seeds share a system role, session key, runtime id or name, that their texts are not blank, and that only the generic starter bears the backlog's name, all of which the shipped seeds meet.
- DefaultPackage: constraint violations, a missing skill file and a missing tenant abort the transaction and are not modelled; time columns, agent documents, MCP assignments, and the policy, status and event seeds that other modules write are not part of this model.
- Evidence gates, prompt regions, schedule text, pagination and the recovery gate: single folds or partitions that would only add easier members.
- React components, routes, SQL, network, processes and cryptography.
