# Flight preview, replay and telemetry: a verified model

This project models the engine behind CosmoSoft's flight preview and replay, and the live text decoder that feeds it.

- **Charts.** `ChartSummaries`, `ChartQuery`, `ChartMissing`, `ChartSelection` and the class `ChartOverview.Overview`: the
  block-summary tree over nine metrics, its range query, its missing-value query and the budgeted, peak-preserving
  selection of rows.
  `ChartSegments`, `ChartDrawing`: the split of a drawn trace into lines and isolated points, and the chart of a
  selection. `ChartBudget`: exactly how small the budget may be. `PreviewCache.Cache`: the memo of selections.
- **Positions.** `GpsTrajectory` and the class `GpsTracker.Tracker`: append-only fixes with interpolation of held
  coordinates, thinning and renumbering. `GpsDisplay`, `GpsCompaction`, `GpsHistory`, `GpsRecording`: what one append,
  one compaction and a whole recording do to the display.
- **Live map.** `LiveHistory`: the bounded history of the live map, which thins and renumbers over and over.
  `LiveSchedule`: any schedule of samples, thinnings and renumberings. `LiveMap`: the program's own schedule and its
  bounds. `LiveLimits`, `LiveMisdrawn`, `LiveClash`: what a renumbering without room does. `LiveFeed`: from the bytes of
  the link to the map. `LivePublication` and the class `LiveLink.MapLink`: the batches sent to the page of the map.
  `LiveLines`: what the lines on the map connect.
- **Drawn trajectory.** `MonotoneCurve`, `TrajectoryCurve`, `TrajectoryShape`, `TrajectoryLines`: the PCHIP curve through
  the positions, piece by piece, and the visible trail.
- **Time.** `PreviewTimeline`, `PreviewSteps`: the repaired display timeline and the lookups on it. `ReplayState`,
  `ReplaySchedule` and the class `ReplayController.Controller`: play, pause, stop, seek and speed against a clock.
- **Telemetry.** `TelemetryCsv`: the two CSV readers. `TelemetryStream`, `TelemetryDiagnostics` and the class
  `TelemetryDecoder.LineDecoder`: the chunked byte-stream decoder and its diagnostics.
- **Files and text.** `SkinArchive`, `SkinArchiveContents`, `SkinArchiveRules`, `SkinArchiveNames`: the restricted ZIP
  reader, what it guarantees and what it allows. `SkinArchiveFormat`, `SkinArchiveLayout`, `SkinArchiveRoundTrip`: a
  writer for it (sections 4.3.7, 4.3.12 and 4.3.16 of PKWARE's APPNOTE.TXT), and that what it writes is read back.
  `MissionRevision`: the save-revision tracker. `EventLogText`: bounded single-line text as UTF-16 (section 3.9 of the
  Unicode Standard).

A step-by-step function of values specifies each operation that changes state; the method in the class (or the loop) is
proved equal to it, and the lemmas about the function carry the properties, in terms of inputs and outputs alone. A metric value is a `Reading`, finite or not;
timestamps are integer milliseconds; coordinates and fix indices are reals. Definitions that a proof does not need are
hidden at its start, which keeps every proof short to check.

Two things the code does beyond what it is for, both kept as they are:

- The slot of the live map accepts samples with timestamps beyond 1e15 ms; such a sample makes a fix but no row. A later
  renumbering may then find no room for that fix. `LiveLimits.RunExact` says for every run that all next rows get their
  right anchors exactly when every renumbering finds room, `LiveMisdrawn.NextDrawnExactly` says exactly when some next row is
  drawn elsewhere, and `LiveClash.UntimelyRunMisdraws` is a run in which one is. The line decoder never delivers such a
  timestamp, so everything that comes over the link is drawn right (`LiveFeed.BytesToMap`).
- The archive's texture pattern ends in `$`, which also matches before a final line feed, so one more ending is accepted:
  `SkinArchiveNames.AllowedEndings` says exactly which, and `SkinArchiveNames.LineFeedNameIsRead` reads such an archive.

The comment on the selection promises original extrema within a strict budget, and an inner comment exempts tiny budgets.
`ChartSelection` proves the budget for every call, and the extrema for every budget that holds one full bucket: two points
and six per enabled metric. `ChartBudget.BudgetExact` says that no smaller budget will do, whichever metrics are enabled.
The program never gets there: a full bucket has at most 56 points and the budget of a chart is at least 1000
(`ChartBudget.ProgramBudgetKeeps`), so its charts always show the extremes (`ChartDrawing.ChartShowsExtremes`).

## Model

| member | source | states |
|---|---|---|
| ChartSummaries.IncludeSound | include/services/preview/ChartOverview.h:194-209 | Including the next row turns the summary of a set of rows into the summary of that set and the row. |
| ChartSummaries.MergeSound | include/services/preview/ChartOverview.h:211-228 | Merging summaries of any two row sets, in any order, gives the summary of their union: true minimum, maximum, first and last missing row. |
| ChartSummaries.LeafStep | include/services/preview/ChartOverview.h:31-38 | Filling one more row into its leaf keeps the heap invariant for all leaves, one row further. |
| ChartSummaries.InnerStep | include/services/preview/ChartOverview.h:39-45 | Merging two children extends the heap invariant to their parent. |
| ChartSummaries.SpanIsInterval | include/services/preview/ChartOverview.h:23-47 | What a node collects through its children is one interval of blocks: those between its place in its level and the next. |
| ChartQuery.WalkSound | include/services/preview/ChartOverview.h:245-254 | The bottom-up walk from any level joins exactly the blocks between its two borders to what was covered outside them, however ragged. |
| ChartQuery.QuerySound | include/services/preview/ChartOverview.h:230-256 | For every range, a query on a built or a default tree is the exact summary of the rows in the range. |
| ChartQuery.QueryAgreesWithScan | include/services/preview/ChartOverview.h:230-256 | Tree and left-to-right scan agree: same missing rows, same extreme values, and no extremes only together; extreme rows may differ between equal values. |
| ChartMissing.HasMissingExact | include/services/preview/ChartOverview.h:117-146 | The early-leaving missing query answers whether some row of the clamped range is missing; a metric that does not exist counts as missing. |
| ChartOverview.Overview.Build | include/services/preview/ChartOverview.h:23-47 | Whatever the object held, every node afterwards summarises exactly its blocks, for all nine metrics. |
| ChartOverview.Overview.RangeSummary | include/services/preview/ChartOverview.h:230-256 | The loops with moving borders compute the specified query. |
| ChartOverview.Overview.Missing | include/services/preview/ChartOverview.h:117-146 | The loops with early exits compute the specified missing query, invalid metrics included. |
| ChartOverview.Overview.Choose | include/services/preview/ChartOverview.h:56-113 | Bucket loop, sort, unique and reduction compute the specified selection, for every budget and flag set. |
| ChartSelection.SelectShape | include/services/preview/ChartOverview.h:55-113 | Strictly increasing, inside the clamped range, within the budget, empty only without budget or rows, first row kept, last row kept from budget 2, everything kept when it fits. |
| ChartSelection.SelectKeepsBuckets | include/services/preview/ChartOverview.h:64-100 | With room for m times two and six per enabled metric points, and not for m + 1 times, the range is cut into m even buckets, and each keeps its border rows and, for each enabled metric, an original minimum and maximum, its first and last missing row and their neighbours. |
| ChartSelection.SelectKeepsExtremes | include/services/preview/ChartOverview.h:49-113 | Hence minimum, maximum and outermost gap borders of the whole range survive the selection. |
| ChartSelection.ReducedShape | include/services/preview/ChartOverview.h:103-111 | The reduction for tiny budgets picks distinct candidates in order, first and last included. |
| ChartSelection.ReducedEven | include/services/preview/ChartOverview.h:103-111 | They are spread evenly: each stands where its share of the way falls, rounded down. |
| ChartBudget.BudgetExact | include/services/preview/ChartOverview.h:49-113 | Every enabled metric keeps its minimum and maximum on all samples and ranges exactly when no metric is enabled or the budget holds one full bucket. |
| ChartBudget.SmallBudgetLosesMaximum | include/services/preview/ChartOverview.h:103-111 | For any enabled metrics and any smaller budget, there are rows of which the reduction drops the only maximum of an enabled metric. |
| ChartBudget.ProgramBudgetKeeps | src/gui/pages/DashboardPage.cpp:2069-2072 | The budget of a chart is twice its width, within 1000 and 6000; so it holds a full bucket of any metrics and keeps all extremes. |
| EvenSpread.ShareIncreasing | include/services/preview/ChartOverview.h:77-82 | The bucket borders floor(i*n/k) are strictly increasing when k is at most n. |
| EvenSpread.ShareTiles | include/services/preview/ChartOverview.h:77-82 | Every row lies in some bucket. |
| EvenSpread.ShareIsFloor | include/services/preview/ChartOverview.h:77-82 | A border is the largest number whose multiple stays within the product. |
| EvenSpread.ShareBalanced | include/services/preview/ChartOverview.h:77-82 | No bucket has more than one row more than another. |
| GpsTracker.Tracker.AppendSample | include/services/preview/GpsTrajectory.h:20-49 | New state and redraw flag are those of the specified append. |
| GpsTracker.Tracker.Retain | include/services/preview/GpsTrajectory.h:97-116 | The thinning loop computes the specified thinned trajectory. |
| GpsTracker.Tracker.Rebase | include/services/preview/GpsTrajectory.h:120-140 | Renumbering fix by fix in place computes the specified renumbered trajectory. |
| GpsCompaction.BracketShows | include/services/preview/GpsTrajectory.h:58-93 | Position and segment of a row depend only on the two fixes around it. |
| GpsDisplay.AppendBracket | include/services/preview/GpsTrajectory.h:20-49 | An append keeps fixes in order and changes the bracket of an earlier row only by closing an open one. |
| GpsDisplay.RedrawComplete | include/services/preview/GpsTrajectory.h:20-84 | When append says no redraw is needed, every earlier row is still drawn where it was; segments of earlier rows never change. |
| GpsDisplay.InterpolationSound | include/services/preview/GpsTrajectory.h:58-84 | Only a held row between two fixes of one segment at most 3000 ms apart moves: its latitude, and its longitude on the shorter arc, go the same share of the way as the time; it stays between the two latitudes and in [-180,180]. |
| GpsDisplay.RemainderNearest | include/services/preview/GpsTrajectory.h:78-83 | The remainder to 360 is the same angle within half a turn, and the angle itself if that already is. |
| GpsCompaction.KeepAllPicks | include/services/preview/GpsTrajectory.h:100-113 | Thinning keeps a sub-sequence of the fixes in order, with both anchors of every retained row. |
| GpsCompaction.RetainInvisible | include/services/preview/GpsTrajectory.h:97-116 | For sorted indices, every retained row keeps bracket, position and segment. |
| GpsCompaction.RenumberCompares | include/services/preview/GpsTrajectory.h:125-139 | A renumbered index lies before, at or after row k exactly as the old one lay before, at or after the k-th retained row. |
| GpsCompaction.RenumberIncreasing | include/services/preview/GpsTrajectory.h:125-139 | Renumbering is strictly increasing, also outside the retained rows. |
| GpsCompaction.RenumberProportional | include/services/preview/GpsTrajectory.h:125-139 | Between two retained rows the renumbered index keeps the proportion; the outermost pairs also govern what lies outside. |
| GpsCompaction.RebaseInvisible | include/services/preview/GpsTrajectory.h:120-140 | For strictly increasing indices, row k after renumbering has bracket, position and segment of row indices[k] before. |
| GpsHistory.SegmentsAreStretches | include/services/preview/GpsTrajectory.h:88-93 | Two valid rows share a segment exactly when every row after the first, up to the second, is valid and follows within 3000 ms. |
| GpsRecording.RecordingDisplayed | include/services/preview/GpsTrajectory.h:51-84 | For a whole recording, from its samples alone: a held row is drawn between the report of its position and the next one, in latitude and on the shorter arc in proportion to the time, exactly when every row between continues its predecessor and the two are at most 3000 ms apart; every other row where it says. |
| GpsRecording.RedrawExact | include/services/preview/GpsTrajectory.h:20-49 | Recording a further sample asks for a redraw exactly when it completes a held interval, so that the row before it is now drawn between two reports. |
| LiveHistory.CappedPositionIsShare | src/gui/widgets/Map3DWidget.cpp:50-76 | The overflow-safe position formula equals floor(i*last/outputLast). |
| LiveHistory.KeptShape | src/gui/widgets/Map3DWidget.cpp:50-76 | The kept positions are distinct, in order and in range, first and last included. |
| LiveHistory.KeptEven | src/gui/widgets/Map3DWidget.cpp:50-76 | They are spread evenly: each stands where its share of the way falls, rounded down. |
| LiveHistory.MapTakesUsable | src/gui/widgets/Map3DWidget.cpp:106-125 | The own test of the map takes exactly the samples that the trajectory takes and whose time is within its limit. |
| LiveSchedule.StepMatches | include/services/preview/GpsTrajectory.h:95-140 | One sample, any thinning, or a renumbering with room keeps every row's anchors those of an uncompacted trajectory, and both trajectories decide alike about the next sample. |
| LiveSchedule.ScheduleMatches | include/services/preview/GpsTrajectory.h:95-140 | So does every schedule: thinnings to any rows at any time, the newest row kept or not, and any renumberings that find room; the surviving rows are exactly the chosen ones and the samples appended since. |
| LiveSchedule.MatchesDrawnAlike | include/services/preview/GpsTrajectory.h:58-93 | Equal anchors mean equal positions and segments on every row. |
| LiveSchedule.RenumberAtNextPlace | include/services/preview/GpsTrajectory.h:125-139 | A fix is renumbered below, to, or beyond the next index exactly as it lies before, at, or behind the place as far behind the newest row as that row behind its predecessor. |
| LiveMap.ReceiveIsSchedule | src/gui/widgets/Map3DWidget.cpp:729-757 | Receiving a sample is a schedule of at most three steps, and its renumbering finds room exactly when there was room. |
| LiveMap.RunMatches | src/gui/widgets/Map3DWidget.cpp:723-799 | After any run whose renumberings found room, the live rows stand for usable samples, in order: the first and the last, at least 5,000 if there are so many, all of them up to 10,000; each with the anchors that an uncompacted trajectory has there. |
| LiveMap.LiveMapFaithful | src/gui/widgets/Map3DWidget.cpp:723-799 | However often the history was thinned and renumbered in such a run, the rows stand for the usable samples like that, and each has the position and the segment of its sample in the full recording. |
| LiveMap.TimelyIsRoomy | src/gui/widgets/Map3DWidget.cpp:740-778 | Without samples beyond the time limit of the map every renumbering finds room. |
| LiveMap.RetainBound | include/services/preview/GpsTrajectory.h:97-116 | Thinning keeps at most two fixes for each row, and the newest one. |
| LiveMap.RunBounded | src/gui/widgets/Map3DWidget.cpp:723-799 | After any run there are at most 10,000 rows, and at most 5,001 fixes more than rows, plus one for each sample beyond the time limit. |
| LiveLimits.RebaseExact | src/gui/widgets/Map3DWidget.cpp:764-778 | After a renumbering the row of the next sample gets the anchors that the full recording has for it exactly when there was room, whatever the sample. |
| LiveLimits.RunExact | src/gui/widgets/Map3DWidget.cpp:723-778 | For every run, no sample excluded: at every moment every usable next row would get its right anchors exactly when at every moment a renumbering would find room. |
| LiveMisdrawn.NextDrawnExactly | src/gui/widgets/Map3DWidget.cpp:764-778 | After a renumbering every usable next sample is drawn where it says exactly when the first fix at or behind the next place is not on it and cannot be bridged from the fix before. |
| LiveClash.UntimelyRunMisdraws | src/gui/widgets/Map3DWidget.cpp:723-778 | After almost ten million samples without a position, two rows and one sample beyond the time limit, the next row is drawn at that sample's latitude, while the full recording draws it at its own. |
| LiveLines.LinesBridgeNothing | include/services/preview/GpsTrajectory.h:86-93 | Whichever live rows are drawn, each piece of the drawing lies between two of them such that the second, and every sample received in between, continues its predecessor. |
| LivePublication.SnapshotGrows | src/gui/widgets/Map3DWidget.cpp:735-757 | A sample that asks for no redraw leaves every row as it would be drawn and adds at most its own behind them. |
| LivePublication.ReceiveSound | src/gui/widgets/Map3DWidget.cpp:723-799 | Unless a snapshot is due, the page keeps showing exactly the rows sent so far as they would be drawn now, through append, thinning and renumbering. |
| LivePublication.PublishSound | src/gui/widgets/Map3DWidget.cpp:801-880 | After a publication, whole or incremental, the page holds exactly what a whole one shows, and in space at most 5,000 of these points in order, the newest included. |
| LivePublication.PublishSends | src/gui/widgets/Map3DWidget.cpp:801-880 | An incremental publication adds exactly the rows the page does not have yet; when they do not fit in space, or a snapshot is due, 2,500 evenly spread points are chosen there anew. |
| LivePublication.QuietStays | src/gui/widgets/Map3DWidget.cpp:729-757 | A sample that moves nothing, with room for its row, asks for no snapshot. |
| LivePublication.PageIsRecording | src/gui/widgets/Map3DWidget.cpp:723-880 | However samples and publications interleave, every publication leaves the page with one point for each live row: the sample it stands for, at the place and in the segment that the full recording gives it. |
| LiveLink.MapLink.ReceiveSample | src/gui/widgets/Map3DWidget.cpp:729-757 | One sample in place: history, snapshot flag and published marks are those of the specified step. |
| LiveLink.MapLink.SendPending | src/gui/widgets/Map3DWidget.cpp:801-880 | The counting and sending loops leave page, marks and flag as specified. |
| LiveFeed.DecodedIsTimely | include/services/telemetry/LineTelemetryDecoder.h:90-98 | Every decoded sample has a timestamp from 0 to 1e12, inside the time limit of the map. |
| LiveFeed.FlightFields | include/services/telemetry/GpsCoordinateCorrection.h:15-21 | From the cells of a line to the sample on the map: every reading is the number in its own cell or the magnitude of three, and with the correction on the longitude is always western. |
| LiveFeed.BytesToMap | src/gui/MainWindow.cpp:1828-1842 | Whatever bytes, gaps and ends arrive, every row of the live map is one completed line, drawn in the place and segment that the lines alone determine; the rows stand for all usable lines, and the map stays small. |
| MonotoneCurve.EndTangentFits | assets/map/map3d.js:256-260 | The end rule gives a tangent between nothing and three times the end slope. |
| MonotoneCurve.InnerTangentFits | assets/map/map3d.js:262-265 | The weighted harmonic mean lies between nothing and three times either neighbouring slope. |
| MonotoneCurve.EndTangentExact | assets/map/map3d.js:256-260 | At the end of a parabola whose slopes agree in sign with its derivative there, the tangent is that derivative. |
| MonotoneCurve.EndTangentNearest | assets/map/map3d.js:256-260 | The end rule takes the nearest to the three-point tangent between nothing and three times the end slope, for all slopes. |
| MonotoneCurve.InnerTangentHarmonic | assets/map/map3d.js:262-265 | The inner rule is nothing where the data turns, and otherwise solves the equation of the weighted harmonic mean. |
| MonotoneCurve.PieceIsCubic | assets/map/map3d.js:276-279 | A piece with the ends and tangents of any cubic is that cubic. |
| MonotoneCurve.PieceMonotone | assets/map/map3d.js:276-279 | A Hermite piece whose tangents fit passes both data points and is monotone between them. |
| MonotoneCurve.PieceBetween | assets/map/map3d.js:276-279 | Such a piece never leaves its two data values, so the clamp changes nothing. |
| TrajectoryCurve.TangentsFit | assets/map/map3d.js:253-268 | The tangents of every interval fit its slope at both ends, whatever the values and the positive steps. |
| TrajectoryCurve.CurveCoordSound | assets/map/map3d.js:270-284 | On each axis the clamped curve is the unclamped cubic, passes the data and is monotone between. |
| TrajectoryCurve.CurveOfLine | assets/map/map3d.js:253-284 | Data on one line is drawn as that line, whatever the steps in time. |
| TrajectoryCurve.GroupThrough | assets/map/map3d.js:246-289 | A segment of at least two positions is one joined line through all of them, curved or straight. |
| TrajectoryCurve.LineSound | assets/map/map3d.js:239-292 | Every piece runs monotonically between neighbouring positions of one segment and every continued position is reached. |
| TrajectoryCurve.PositionsDrawn | assets/map/map3d.js:239-292 | Every position with a neighbour in its segment is itself drawn, so the extremes of the data are. |
| TrajectoryCurve.PieceWithinData | assets/map/map3d.js:237-238 | Any bound on a coordinate of the data bounds the drawing. |
| TrajectoryShape.SubdivisionsFinest | assets/map/map3d.js:245 | The finest of one to four subdivisions that stays within 12,000 pieces; one if none does. |
| TrajectoryShape.RunIsCurve | assets/map/map3d.js:246-284 | In a segment whose times are finite and rise, piece k of an interval runs from k - 1 to k parts along the cubic through both positions whose tangents are those of the two rules on the data, on every axis. |
| TrajectoryShape.RunIsStraight | assets/map/map3d.js:285-289 | In any other segment one straight piece leads from each position to the next. |
| TrajectoryShape.TrailIsPrefix | assets/map/map3d.js:240-244 | With rows in order the visible trail is the drawing up to the last piece that leads to a row of the trail. |
| TrajectoryLines.TrajectoryLinePoints | assets/map/map3d.js:239-292 | The pushing loops produce exactly the vertices of the specified pieces, and for the trail those that end before its length. |
| TrajectoryLines.ComputeTangents | assets/map/map3d.js:253-268 | The slope and tangent loops produce the specified tangents. |
| TrajectoryLines.CappedPositions | assets/map/map3d.js:153-164 | Exactly min(length, budget) strictly increasing positions, evenly spread, first and last included. |
| PreviewTimeline.TimelineSound | include/services/preview/FlightPreviewCache.h:318-374 | The display time starts at 0 and is strictly increasing; every good step is kept and every bad one replaced by the median, so it equals the raw elapsed time exactly when no step is bad. |
| PreviewTimeline.MedianInTheMiddle | include/services/preview/FlightPreviewCache.h:318-374 | The replacement step is the middle one of the sorted good steps: those in the lower half are not above it, those in the upper half not below. |
| PreviewSteps.MedianOfRows | include/services/preview/FlightPreviewCache.h:318-374 | Counted over the rows: the replacement is a good step of some row, with at most half of the good rows below it and fewer than the rest above; 1 ms when no step is good. |
| PreviewSteps.BadStepsAreRows | include/services/preview/FlightPreviewCache.h:318-374 | The number of discontinuities is the number of rows whose step is not good. |
| PreviewTimeline.BuildTimeline | include/services/preview/FlightPreviewCache.h:318-374 | The loops build that timeline, the median, the number of bad steps, and the flag that says there were any. |
| PreviewTimeline.VisibleRange | include/services/preview/FlightPreviewCache.h:151-173 | Exactly the rows of the prefix inside the window, or else the one row next to it; the whole prefix for a malformed window. |
| PreviewTimeline.NearestRow | include/services/preview/FlightPreviewCache.h:176-192 | A nearest row, the earlier one on a tie; row 0 for NaN and negative infinity, the last row for positive infinity. |
| PreviewTimeline.CappedIndices | include/services/preview/FlightPreviewCache.h:444-459 | Evenly spread entries of the list, first and last included, none twice; everything for a negative budget, nothing for 0. |
| PreviewCache.MaskRoundTrip | include/services/preview/FlightPreviewCache.h:303-312 | The flags can be read back from the mask, so different flags never share a key. |
| PreviewCache.StoreSound | include/services/preview/FlightPreviewCache.h:228-234 | Storing a selection, with wholesale eviction at 64 entries, keeps the memo correct and bounded. |
| PreviewCache.StoreRemembers | include/services/preview/FlightPreviewCache.h:228-234 | A stored selection is remembered along with all others; a full memo forgets the others. |
| PreviewCache.NothingForgotten | include/services/preview/FlightPreviewCache.h:218-235 | While fewer than 64 different selections were stored, exactly these are remembered, in any interleaving. |
| PreviewCache.EveryHitIsSelection | include/services/preview/FlightPreviewCache.h:218-235 | After any interleaving of lookups and inserts a hit returns what the selection would, and at most 64 entries are held. |
| PreviewCache.Cache.constructor | include/services/preview/FlightPreviewCache.h:52-72 | A built cache belongs to its session, holds a built tree and an empty memo. |
| PreviewCache.Cache.ChartIndices | include/services/preview/FlightPreviewCache.h:201-236 | Every call returns the selection for its own arguments, remembered or not, and remembers it; the own session always gets its rows, another identity or length none. |
| ReplayState.ApplyKeepsValid | src/gui/FlightReplayController.cpp:53-311 | Every public call, with any clock and any argument, keeps: time within the duration, index within the count, and index = number of rows at or before the time, or the rewound start. |
| ReplayState.EveryRunValid | src/gui/FlightReplayController.cpp:53-311 | So does every sequence of calls. |
| ReplayState.RunFromIdle | src/gui/FlightReplayController.cpp:40-51 | In particular every sequence of calls on a new controller. |
| ReplayState.NeverBackwards | src/gui/FlightReplayController.cpp:264-291 | While playing, no tick, speed change, pause or play lowers time or index, even when the clock runs backwards. |
| ReplayState.SynchronizeSound | src/gui/FlightReplayController.cpp:264-291 | A synchronisation moves time forward to what the anchor says, and stops playback exactly when the end is reached. |
| ReplayState.RankOfRow | src/gui/FlightReplayController.cpp:206-257 | Position to time and back is the identity strictly between both ends. |
| ReplayState.RankExact | src/gui/FlightReplayController.cpp:237-257 | The position for any time is the number of rows at or before it. |
| ReplayState.SeekLands | src/gui/FlightReplayController.cpp:170-182 | A seek rests on the clamped position at the time of its last row, and any position but 0 is the rank of that time. |
| ReplayState.LoadShowsSession | src/gui/FlightReplayController.cpp:53-84 | A loaded session is shown from the start at rest, whatever went before; the speed stays. |
| ReplayState.StopRewinds | src/gui/FlightReplayController.cpp:158-168 | A stop goes back to the start of the same session at rest; the speed stays. |
| ReplayState.NormalizedSpeedNearest | src/gui/FlightReplayController.cpp:28-34 | A positive speed becomes the nearest one from 0.25 to 4; anything else becomes 1. |
| ReplayState.SpeedIsSet | src/gui/FlightReplayController.cpp:99-116 | A speed change sets the speed and moves nothing at rest. |
| ReplayState.CallsIgnored | src/gui/FlightReplayController.cpp:118-189 | Play while playing, pause and ticks at rest, and all of them and seeks without samples change nothing. |
| ReplayState.BuiltTimelineIsGood | include/services/preview/FlightPreviewCache.h:318-374 | Every timeline the preview builds meets what the controller relies on. |
| ReplaySchedule.PlayStarts | src/gui/FlightReplayController.cpp:118-141 | Play continues at the current time, or at 0 from the end, anchored at the clock. |
| ReplaySchedule.PauseHolds | src/gui/FlightReplayController.cpp:143-156 | A pause holds the place reached, with its row; playing again goes on from there, and the time in between does not count. |
| ReplaySchedule.RunStep | src/gui/FlightReplayController.cpp:99-116 | One tick or speed change of a run: it ends exactly when it synchronises at or past the duration, otherwise the run goes on from the distance travelled. |
| ReplaySchedule.ScheduleRuns | src/gui/FlightReplayController.cpp:184-291 | After any ticks and speed changes with a non-decreasing clock: still playing exactly when no synchronisation reached the duration, time as far as speed times clock says; otherwise ended at the last row. |
| ReplaySchedule.FinalTick | src/gui/FlightReplayController.cpp:222-235 | A tick after any schedule shows min(duration, start + sum of speed times elapsed clock), with exactly the rows up to that time. |
| ReplaySchedule.LoadedRun | src/gui/FlightReplayController.cpp:53-291 | A session that is loaded and played: after any ticks and speed changes a tick shows exactly its rows up to the time travelled, and playback ends when its last row is reached. |
| ReplaySchedule.IdealIgnoresTicks | src/gui/FlightReplayController.cpp:259-262 | The distance travelled depends on the speed changes only. |
| ReplaySchedule.TicksDoNotMatter | src/gui/FlightReplayController.cpp:184-189 | Two schedules with the same speed changes agree, at the next tick, in time, index, playing and speed. |
| ReplayController.Controller.LoadSession | src/gui/FlightReplayController.cpp:53-84 | The built timeline replaces the old one; playback rests at index and time 0, the speed stays, and the invariant holds. |
| ReplayController.Controller.ChangeSpeed | src/gui/FlightReplayController.cpp:99-116 | The new speed, 1 for a malformed one and otherwise clamped to 0.25 to 4, applies from this clock reading on; what was travelled before stays. |
| ReplayController.Controller.Start | src/gui/FlightReplayController.cpp:118-141 | Plays on from the current time, or from 0 at the end; ignored while playing or without samples. |
| ReplayController.Controller.Suspend | src/gui/FlightReplayController.cpp:143-156 | Shows what the clock says, then rests there. |
| ReplayController.Controller.Reset | src/gui/FlightReplayController.cpp:158-168 | Rests at index 0 and time 0, whatever went before. |
| ReplayController.Controller.Seek | src/gui/FlightReplayController.cpp:170-182 | Rests on the clamped position and its time, for any argument; ignored without samples. |
| ReplayController.Controller.OnTimer | src/gui/FlightReplayController.cpp:184-189 | Shows what the clock says, or ends playback; ignored unless playing. |
| ReplayController.Controller.SynchronizePlayback | src/gui/FlightReplayController.cpp:264-291 | Time and index move up to the clock's candidate, and the end is detected in place. |
| TelemetryCsv.Split | include/services/telemetry/LineTelemetryDecoder.h:58-72 | The character loop yields the cells that SplitAtComma describes. |
| TelemetryCsv.SplitAtComma | include/services/telemetry/LineTelemetryDecoder.h:58-72 | The cells are the text before the first comma, then the cells of the rest. |
| TelemetryCsv.CursorReadsCells | include/services/telemetry/LineTelemetryDecoder.h:104-140 | The cursor reads on success exactly the values of the split cells, and fails exactly when there are too few or one is no finite number. |
| TelemetryCsv.ParsersAgree | include/services/telemetry/LineTelemetryDecoder.h:104-171 | A row decodes exactly when splitting gives 16 or 17 cells that all meet the rules, and to the sample of those cells. |
| TelemetryCsv.DecodesExactly | include/services/telemetry/LineTelemetryDecoder.h:104-171 | A row decodes exactly when it is no header and splits into 16 or 17 numbers of at most 1e12, the first whole and not negative, latitude and longitude in range. |
| TelemetryCsv.DecodedFields | include/services/telemetry/LineTelemetryDecoder.h:152-171 | Each of the fields of a decoded sample is the number in its own cell, in the order of the header. |
| TelemetryCsv.CleanDiagnosticMeansBadTail | include/services/telemetry/LineTelemetryDecoder.h:299-316 | The two masks of a rejected row are disjoint; both are empty exactly when the first 16 cells are valid, and then the tail is bad. |
| TelemetryCsv.MissingExactly | include/services/telemetry/LineTelemetryDecoder.h:299-316 | A cell is missing exactly when it is absent or holds only spaces, tabs and carriage returns. |
| TelemetryStream.StreamSound | include/services/telemetry/LineTelemetryDecoder.h:222-289 | For any bytes, gaps and finishes: the samples are, in order, the decodes of the completed lines that fit and have no gap; the pending bytes never exceed the limit. |
| TelemetryStream.HeadersAreSilent | include/services/telemetry/LineTelemetryDecoder.h:292-298 | Both headers leave no trace, with or without a carriage return. |
| TelemetryStream.RowsAccounted | include/services/telemetry/LineTelemetryDecoder.h:197-322 | Samples plus malformed lines equal the diagnostic sequence plus one while an oversized line is open, which implies discarding. |
| TelemetryDiagnostics.DiagnosticsSound | include/services/telemetry/LineTelemetryDecoder.h:292-322 | Sequence number, latest diagnostic and malformed count are those of the completed lines' outcomes. |
| TelemetryStream.RunAppend | include/services/telemetry/LineTelemetryDecoder.h:232-270 | Handling events in two batches is handling them at once. |
| TelemetryDecoder.ChunksDoNotMatter | include/services/telemetry/LineTelemetryDecoder.h:232-270 | Cutting the bytes into chunks anywhere changes neither samples nor state. |
| TelemetryDecoder.MarkCells | include/services/telemetry/LineTelemetryDecoder.h:303-315 | The loop marks as missing exactly the absent or blank cells, and as invalid exactly the others that break a rule. |
| TelemetryDecoder.LineDecoder.Ingest | include/services/telemetry/LineTelemetryDecoder.h:232-270 | Byte by byte in place: the samples and the state of the run that StreamSound describes. |
| TelemetryDecoder.LineDecoder.FinishStream | include/services/telemetry/LineTelemetryDecoder.h:277-289 | Ends the open line: decoded if it is whole, reported if it was too long, dropped if it has a gap. |
| TelemetryDecoder.LineDecoder.NotifyDataGap | include/services/telemetry/LineTelemetryDecoder.h:222-225 | Drops the pending bytes and everything up to the next newline. |
| TelemetryDecoder.LineDecoder.Reset | include/services/telemetry/LineTelemetryDecoder.h:197-203 | Back to the fresh state with the same limit. |
| TelemetryDecoder.LineDecoder.Process | include/services/telemetry/LineTelemetryDecoder.h:292-322 | One completed line: its sample, or one more malformed line with the masks of its bad cells; nothing for empty lines and headers. |
| ChartSegments.RunsPartition | src/gui/pages/DashboardPage.cpp:2275-2300 | The runs are the finite points, all of them, in order. |
| ChartSegments.RunsSolid | src/gui/pages/DashboardPage.cpp:2275-2300 | A run is consecutive plot points without a gap between them, and one stays open exactly after a finite point. |
| ChartSegments.GapExact | src/gui/pages/DashboardPage.cpp:2285-2296 | The gap test, on the built tree or a scan, sees a gap exactly when some raw row strictly between is missing, in either direction of the indices; without an index it always does. |
| ChartDrawing.RunIsDrawn | src/gui/pages/DashboardPage.cpp:2247-2273 | A run becomes a line, unless it is a single point or 32 lines are drawn; then all its points are isolated. |
| ChartDrawing.DrawingExact | src/gui/pages/DashboardPage.cpp:2242-2316 | At most 32 lines of at least two points, the first long runs; every finite selected point exactly once, in a line or isolated; neighbours joined exactly when both have values and no raw sample between them is missing, unless 32 lines leave both isolated. |
| ChartDrawing.SelectionShowsExtremes | src/gui/pages/DashboardPage.cpp:2242-2316 | On the chart of a selection with room for a full bucket, for every raw row of the range some drawn point is as low and some as high, and no line bridges a missing row. |
| ChartDrawing.ChartShowsExtremes | src/gui/pages/DashboardPage.cpp:2069-2106 | So it is on every chart the program draws, at any width and with any metrics enabled. |
| ChartSegments.BuildSegments | src/gui/pages/DashboardPage.cpp:2242-2316 | The loop with its buffers shows exactly that drawing. |
| ChartSegments.ShowsReadings | src/gui/pages/DashboardPage.cpp:2275-2300 | The shown points are the displayed readings of their rows. |
| ChartSegments.FlushSegment | src/gui/pages/DashboardPage.cpp:2247-2273 | A flush closes the open run, as a line or as isolated points. |
| ChartSegments.HasFiniteRange | src/gui/pages/DashboardPage.cpp:2199-2241 | The range is finite exactly when some selected value is. |
| SkinArchive.FindEnd | src/gui/SkinArchive.cpp:60-80 | The backward scan returns the specified end record. |
| SkinArchive.EndFrom | src/gui/SkinArchive.cpp:68-79 | That is the last offset in reach with the signature and a comment that ends with the file; none only if there is none. |
| SkinArchive.ReadEntries | src/gui/SkinArchive.cpp:307-391 | The directory loop, with its offset, total and name set, computes the specified directory or refuses. |
| SkinArchive.ReadSkinArchive | src/gui/SkinArchive.cpp:279-411 | The reader computes the specified archive contents or refuses. |
| SkinArchiveContents.AcceptedDirectory | src/gui/SkinArchive.cpp:284-399 | In any directory that is read, hence on any accepted archive, the records of the one disk tile the declared directory exactly, names are allowed and differ by more than case, there is a theme, and the expanded total is at most 32 MiB. |
| SkinArchiveContents.FilesSound | src/gui/SkinArchive.cpp:401-411 | Exactly the entries that are no directories are taken out, none overwriting another, each with its declared size and checksum. |
| SkinArchiveContents.AcceptedEnd | src/gui/SkinArchive.cpp:284-305 | The end record of an accepted archive names one disk, twice the same count and a directory in front of it, in a file of at most 10 MiB. |
| SkinArchiveContents.TakenOutAgrees | src/gui/SkinArchive.cpp:148-246 | Only an entry whose local header repeats the directory and whose data lies in front of it is taken out, as its packed data or the inflation of that. |
| SkinArchiveContents.AgreedIsTakenOut | src/gui/SkinArchive.cpp:148-246 | And every such entry is, if its size and checksum are right. |
| SkinArchiveRoundTrip.RoundTrip | src/gui/SkinArchive.cpp:279-411 | Whatever acceptable entries are written, stored or deflated, streamed or not, with extra fields and comments, in any order, the textures directory among them or not, reading gives back exactly the files. |
| SkinArchiveRoundTrip.StoredRoundTrip | src/gui/SkinArchive.cpp:279-411 | In particular any acceptable set of files, written as stored files with nothing around them. |
| SkinArchiveFormat.FileMapExact | src/gui/SkinArchive.cpp:401-411 | The map that comes back has exactly the written names, each with its bytes. |
| SkinArchiveNames.AllowedEndings | src/gui/SkinArchive.cpp:124-133 | An allowed name ends in .png or .json exactly when its last byte is no line feed; otherwise it is an image name and the line feed. |
| SkinArchiveNames.AllowedExactly | src/gui/SkinArchive.cpp:124-133 | Allowed are exactly the two fixed names and the textures: a letter or digit and up to 127 letters, digits, dots, underscores or hyphens, perhaps with a line feed behind. |
| SkinArchiveNames.AllowedNamesAreFlat | src/gui/SkinArchive.cpp:101-133 | No allowed name leads out of the textures directory. |
| SkinArchiveRules.RulesInNumbers | src/gui/SkinArchive.cpp:90-146 | The rules for attributes, flags, methods, directories and sizes, in numbers. |
| SkinArchiveRules.FoldIgnoresCase | src/gui/SkinArchive.cpp:350-357 | Names fold alike exactly when they differ at most in the case of their letters. |
| SkinArchiveNames.LineFeedNameIsRead | src/gui/SkinArchive.cpp:124-133 | An archive with such a name is read back like any other. |
| MissionRevision.SavedIsMark | include/services/persistence/MissionState.h:14-30 | After any operations the saved mark is the largest revision of the current session that was written, 0 if none. |
| MissionRevision.MarkIsLargest | include/services/persistence/MissionState.h:24-28 | That mark bounds every written revision of the session and, unless 0, was itself written. |
| MissionRevision.RevisionCountsEdits | include/services/persistence/MissionState.h:14-20 | The revision is the number of edits since the last reset, the session the number of resets. |
| MissionRevision.CleanMeansWritten | include/services/persistence/MissionState.h:30 | Not dirty means exactly: no edit since the last reset, or a snapshot of the current revision was written. |
| MissionRevision.EditMakesDirty | include/services/persistence/MissionState.h:20-30 | After an edit the recording is always dirty. |
| MissionRevision.SavingCleans | include/services/persistence/MissionState.h:15-30 | A snapshot of the present that is written before anything else happens cleans; so does a reset. |
| MissionRevision.StaleSaveKeepsDirty | include/services/persistence/MissionState.h:24-28 | Saving any other snapshot than the current one never clears the dirty flag. |
| MissionRevision.RecordingRevision.Restart | include/services/persistence/MissionState.h:15-18 | A new session without changes or saves. |
| MissionRevision.RecordingRevision.Changed | include/services/persistence/MissionState.h:20 | One more revision of the same session, and nothing else. |
| MissionRevision.RecordingRevision.TakeSnapshot | include/services/persistence/MissionState.h:22 | The current session and revision. |
| MissionRevision.RecordingRevision.Saved | include/services/persistence/MissionState.h:24-28 | The mark moves up to the snapshot's revision, and only then, if it belongs to this session and is not ahead of it. |
| EventLogText.BoundedSingleLineText | src/gui/pages/EventLogFormatting.h:26-66 | The single early-stopping pass equals normalising the whole text and then cutting it. |
| EventLogText.BoundedSound | src/gui/pages/EventLogFormatting.h:26-66 | At most 4096 code units, no separators, idempotent, and the normalised text whenever that fits. |
| EventLogText.NormalizeAppend | src/gui/pages/EventLogFormatting.h:31-48 | Normalising goes piece by piece unless a carriage return is cut off from its line feed. |
| EventLogText.NormalizePieces | src/gui/pages/EventLogFormatting.h:31-48 | Each separator becomes one space, the pair one space, any other unit itself. |
| EventLogText.BoundedCut | src/gui/pages/EventLogFormatting.h:50-66 | A text that is too long keeps its first 4082 normalised units and gets the marker; one less if that would split a surrogate pair. |
| EventLogText.BoundedWellFormed | src/gui/pages/EventLogFormatting.h:56-66 | Well-formed UTF-16 stays well-formed, cut or not. |

## Left out

- Floating point: rounding, `nextafter`, `long double` and overflow; metric values, coordinates and times are exact. NaN and
  the infinities are one value, "not finite".
- PreviewTimeline.CappedIndices: does not model a budget of 1 for a longer list, because the code then divides by zero; its
  only callers pass two constants far above.
- PreviewTimeline.TimelineSound: does not model times in seconds; the timeline is in whole milliseconds, before the division
  by 1000.
- LiveMap.LiveMapFaithful: does not model runs with a renumbering that finds no room, because faithfulness may fail in them;
  `LiveLimits.RunExact` is the exact condition. Lookups on the fixes that are out of order from then on are modelled only
  for the next row, where the order still answers `std::lower_bound`.
- LivePublication.PageIsRecording: does not model the totals, path length and attitude that travel with a batch, the reset
  that clears the page, and that samples are ignored while a recording is shown. A page replaces or extends its points as
  the batch says; its own caps are never reached.
- GpsCompaction.RetainInvisible: does not model unsorted indices, because the code asks its callers for sorted ones.
- MissionRevision.SavedIsMark: does not model the wrap-around of 64-bit session and revision numbers, because it takes
  more edits than a recording can hold; the same goes for the counters of the decoder.
- TelemetryCsv.ParsersAgree: does not model `strtod`; it is a parameter that yields nothing on blank text or text with a
  comma. Bytes are characters, and the bits of the diagnostic masks are sets of positions.
- SkinArchiveRoundTrip.RoundTrip: does not model the computation of CRC-32; it is a parameter with 32-bit results. Raw inflation is a
  parameter too, and the file is already in memory.
- ChartDrawing.DrawingExact: does not model the Qt series, pens and axes that hold the lines; x values and unit conversion
  come with the plotted points.
- TrajectoryCurve.LineSound: does not model terrain and the projection to local space; positions carry projected points.
- ReplayState.ApplyKeepsValid: does not model slots that call back into the controller; each public call is one step.
- PreviewCache.Cache.ChartIndices: does not model a session at the remembered address and of the remembered length that holds
  other samples, which `wasBuiltFor` accepts; the tree then belongs to the old samples.
- PreviewCache.EveryHitIsSelection: does not model the mutex; each access under the lock is one step.
- The magnitudes that `hypot` computes are readings of the sample; `LiveFeed` takes `hypot` as a parameter.
- Sorting, `unique`, `lower_bound`, `upper_bound` and `nth_element` are modelled by their results.
- Cancellation polling while a preview is built.
- Error texts of the archive reader, and which of several faults is reported first.
- Metric ranges, GPS index counters, replay buckets and unit conversion: simple folds over the samples.
- Widgets, serial workers, mailboxes, loaders, PNG decoding, themes, and the browser side of the map.
