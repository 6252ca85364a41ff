# rf-site-planner, modelled in Dafny

rf-site-planner predicts radio coverage and point-to-point links. It wraps the
SPLAT! propagation engine behind a small HTTP API. This project models the
parts of it that hold logic and proves what they promise:

- **Terrain tiles** (`tiles.dfy`, `link_walk.dfy`, `tile_cache.dfy`):
  - the `N46E013.hgt.gz` tile names and their `.sdf` / `-hd.sdf` names;
  - the coverage bounding box, enumerated latitude-major;
  - the grid walk from the transmitter's cell to the receiver's cell for a link;
  - the tile cache, which downloads a tile only when its name is missing.
- **Engine input** (`site_files.dfy`, `engine.dfy`, `request.dfy`):
  - the `.qth` site files and the nine-line `.lrp` parameter file, each with a
    read-back proof;
  - the SPLAT! command lines and the non-zero-exit failure;
  - the link request's field bounds, enumerations and defaults.
- **Engine output** (`series.dfy`, `report.dfy`, `los_result.dfy`):
  - the tab-separated gnuplot series;
  - the `tx-to-rx.txt` report scan: obstruction flags, clearance messages,
    obstruction rows, and numeric fields with fallback and "last line wins";
  - the received-power figures derived from the report, including the
    failures the code runs into.
- **Job status** (`jobs.dfy`): the coverage job life cycle over a key-value
  store whose entries expire after an hour.
- **Front end** (`los_data.dfy`, `notifications.dfy`): the down-sampling of a
  link profile longer than 100 points, which keeps every (n / 100)-th point
  (between about 100 and 200 points), and the notification list.
- **Analysis scripts** (`analyze_run.dfy`, `plot_distributions.dfy`,
  `antenna_pattern.dfy`):
  - cell parsing, boolean normalisation and duration formatting;
  - the obstruction buckets, the saved CSV's flag columns and the sign
    normalisation of predictions;
  - file-name sanitising, the poll back-off and the 101 × 101 sweep;
  - the antenna `.az`/`.el` pattern reader and the closing of its curve.

`text.dfy` and `numbers.dfy` hold the string and number vocabulary the rest
uses:

- Python's `float()` on decimal text, as an exact `real`;
- `round(x, 2)` as round-half-even on exact reals;
- `%.Nf` formatting, with a proof that it reads back.

Classes model the state the source changes in place:

- `Jobs.Store` (the Redis keyspace);
- `TileCache.Cache` (the tile directory);
- `Notifications.Store` (the notification list);
- `AnalyzeRun.SiteStats` (per-site lists of the analysis run).

Each method is proved against a specification function: its result or new
state is stated through one (the grid walk through `LinkWalk.WalkCorrected`,
inside the `LinkWalk.LosWalk` predicate). The lemmas about those
functions state the properties. Loops in the source are `while` loops here with
their invariants:

- the grid walk;
- the box enumeration;
- the report scan;
- the series parser;
- the down-sampling;
- the poll loop;
- the sweep;
- the pattern reader.

Where the code and the documentation of the service disagree, the model
follows the code:

- The clearance messages use the line that *follows* the anchor sentence.
- Those messages are f-strings of `bytes`, so they hold `b'…'` reprs.
- The tile cache looks only for the name of the current resolution.

## Model

| member | source | states |
|---|---|---|
| Tiles.TileName | api/services/splat.py:769-771 | the name starts with N for a non-negative latitude cell and S otherwise |
| Tiles.TileNameFields | api/services/splat.py:769-771 | for latitudes within ±99 and longitudes within ±999, characters 1-2 are the latitude's magnitude padded to two digits, character 3 is E for a non-negative longitude and W otherwise, and characters 4-6 are the longitude's magnitude padded to three digits |
| Tiles.HgtToSdfOfTileName | api/services/splat.py:769-777 | for every cell in range, the sdf name derived from the cell's `.hgt.gz` name is `lat:lat+1:minLon:maxLon` with the `.sdf`/`-hd.sdf` suffix |
| Tiles.HdNameSharesStem | api/services/splat.py:1099-1105 | the hd name exists iff the plain name does, and it differs only by `-hd` before `.sdf` |
| Tiles.MinLonIsWestPositive | api/services/splat.py:1100-1104 | min_lon is the west-positive degree `(-lon-1) mod 360`, in 0..359, and max_lon is min_lon+1 with 359 wrapping to 0 |
| Tiles.MinLonInjective | api/services/splat.py:1100-1103 | distinct longitude cells in -180..179 get distinct min_lon |
| Tiles.ClampRadius | api/services/splat.py:335-339 | the radius is at most 300 and is the input unless the input exceeds 300 |
| Tiles.ClampRadiusIdempotent | api/services/splat.py:335-339 | clamping twice equals clamping once; a radius up to 300 is unchanged |
| Tiles.BoxCellsMembership | api/services/splat.py:807-808 | a cell is enumerated iff it lies in the floored box |
| Tiles.BoxCellsSorted | api/services/splat.py:807-808 | the enumeration is strictly latitude-major, then longitude, so no cell repeats |
| Tiles.BoxCellsCount | api/services/splat.py:807-808 | the enumeration has (latMax-latMin+1)·(lonMax-lonMin+1) cells |
| Tiles.RowCells | api/services/splat.py:808-820 | the inner loop produces exactly the row of cells |
| Tiles.CoverageTiles | api/services/splat.py:799-824 | the nested loops produce the names of the box's cells in latitude-major order |
| LinkWalk.AsWrittenPastDestination | api/services/splat.py:755-761 | once the as-written walk moving south passes the destination row, it never reaches the destination |
| LinkWalk.AsWrittenNeverArrives | api/services/splat.py:730-761 | the as-written loop for tx (46.5, 13.5) and rx (46.0, 14.0) does not reach the receiver's cell in any number of steps |
| LinkWalk.StepCorrectedCloser | api/services/splat.py:755-761 | each corrected iteration moves one cell in the line's direction on one axis, stays between the end cells and comes one cell closer to the receiver's |
| LinkWalk.CorrectedShape | api/services/splat.py:730-763 | from a walker between the end cells, the corrected walk arrives at the receiver's cell in exactly the remaining Manhattan distance, by unit steps between the cells |
| LinkWalk.AsWrittenAgrees | api/services/splat.py:730-763 | wherever the as-written loop terminates, it lists the same cells as the corrected loop |
| LinkWalk.CorrectedIsAsWritten | api/services/splat.py:730-763 | the corrected walk from the transmitter's cell equals the as-written walk for every fuel at which that walk arrives |
| LinkWalk.LosCells | api/services/splat.py:710-763 | the cells are the transmitter's cell followed by the corrected walk, which is the as-written walk wherever that terminates; they end at the receiver's cell, number 1 + the Manhattan distance, step one unit in the line's direction and stay between the two end cells |
| LinkWalk.WalkVisitsCellsOnce | api/services/splat.py:755-763 | such a monotone unit-step walk never repeats a cell |
| LinkWalk.LosTiles | api/services/splat.py:703-781 | the tile list is the names, cell by cell, of cells that are everything LosCells states (the corrected walk, equal to the as-written one wherever that ends, of 1 + Manhattan length, by unit steps between the end cells) and visit no cell twice |
| TileCache.FetchError | api/services/splat.py:1066-1080 | a download fails iff there is no response or its status is not 200; the error names the tile and URL |
| TileCache.FillKeepsFiles | api/services/splat.py:1048-1093 | files already cached are never replaced or removed |
| TileCache.FillAddsOnlyTileFiles | api/services/splat.py:1085-1093 | every new file is the name of a requested tile for the current resolution |
| TileCache.FillCoversTiles | api/services/splat.py:1048-1093 | on success every requested tile's name for the current resolution is cached |
| TileCache.FillFailureNamesTile | api/services/splat.py:1066-1080 | a failure is the download error of a requested tile that is not cached |
| TileCache.FillAllCached | api/services/splat.py:1051-1061 | when every name is cached, nothing is downloaded and the directory is unchanged |
| TileCache.FillTwice | api/services/splat.py:1048-1061 | after a successful fill, a second fill downloads nothing |
| TileCache.Cache.Download | api/services/splat.py:1045-1093 | the loop leaves the directory and error that the fill specification gives |
| Request.ParseClimateRoundTrip | api/models/LosPredictionRequest.py:54-65 | the seven climate names and the enumeration correspond one to one |
| Request.ParsePolarizationRoundTrip | api/models/LosPredictionRequest.py:66-69 | `horizontal`/`vertical` and the enumeration correspond one to one |
| Request.ClimateCode | api/services/splat.py:871-879 | every climate's SPLAT! code is in 1..7 |
| Request.ClimateCodeInjective | api/services/splat.py:871-879 | distinct climates get distinct codes |
| Request.WithDefaults | api/models/LosPredictionRequest.py:9-94 | the required coordinates and power are kept as given |
| Request.DefaultsValid | api/models/LosPredictionRequest.py:11-94 | with all defaults, a request is valid iff both positions are in range and tx_power > 0; the defaults are 868.5 MHz, continental temperate, vertical, ITM on, high resolution off |
| Request.BoolAttributeFields | api/models/LosPredictionRequest.py:87-94 | `itm_model` and `high_resolution` are the only boolean attributes; reading any other name fails with an attribute error |
| SiteFiles.WestPositive | api/services/splat.py:837 | a longitude in [-180, 180] becomes a west-positive value in (0, 360] |
| SiteFiles.EastFromWestInverts | api/services/splat.py:578 | the report's longitude correction undoes the site file's encoding for -180 ≤ lon < 180 |
| SiteFiles.EastFromWestAntimeridian | api/services/splat.py:578 | longitude 180 comes back as -180 |
| SiteFiles.QthReadBack | api/services/splat.py:827-844 | the site file is four lines: the name, the latitude to 6 places, the west-positive longitude to 6 places, the elevation to 2 places followed by `m` |
| SiteFiles.LrpFields | api/services/splat.py:892-902 | the parameter file has nine fields |
| SiteFiles.LrpContents | api/services/splat.py:846-907 | the parameter file is produced iff every optional field is given (a missing one fails formatting) |
| SiteFiles.FieldsReadBack | api/services/splat.py:892-902 | each line's text before `;` parses back to the value it printed |
| SiteFiles.LrpReadBack | api/services/splat.py:892-902 | the file has nine lines; line i reads back as field i's printed value (dielectric, conductivity, bending, frequency, climate code, polarization code, both fractions, ERP) |
| SiteFiles.ErpWattsMonotone | api/services/splat.py:883-884 | for a monotone power of ten, more dBm never gives fewer watts |
| Engine.AdjustGain | api/services/splat.py:101-102 | the gain is lowered by 2.15 dB except that 0 stays 0 |
| Engine.AdjustGainJumpAtZero | api/services/splat.py:101-102 | a gain between 0 and 2.15 ends up below the adjusted gain of 0 |
| Engine.LosLrpErp | api/services/splat.py:136-153 | the link's parameter file exists iff every optional field is given, has nine lines, and its ERP line reads back as the watts of tx_power + adjusted tx_gain − tx_loss, to two decimals |
| Engine.LosCommandReadsBack | api/services/splat.py:155-189 | the link command runs the chosen binary and passes tx.qth, rx.qth, clutter height, tile directory, frequency with `M`, `-gpsav`, `-metric`, and `-olditm` iff the ITM flag is set |
| Engine.CoverageCommandReadsBack | api/services/splat.py:386-413 | the coverage command passes tx.qth, receiver height, tile directory, radius, clutter height, `output.ppm`, the dBm contour, `-metric`, `-kml`, `-dbm`, and `-olditm` iff the ITM flag is set |
| Engine.LosCommandAsWrittenFails | api/services/splat.py:188 | reading `itm_mode` from a link request always fails with an attribute error |
| Engine.LosCommandForItm | api/services/splat.py:155-189 | with the declared `itm_model` field the command builds and `-olditm` follows that field |
| Engine.CheckRun | api/services/splat.py:203-210 | a run passes iff its return code is 0; a failure starts with the failure sentence and contains both the run's stdout and its stderr |
| Engine.RunFailureReturnCode | api/services/splat.py:207-210 | the return code can be read back from the failure message |
| Engine.ServiceErrorReadsBack | api/services/splat.py:322-324 | a cause re-raised behind a service's prefix (`LosPrefix` here, `CoveragePrefix` at lines 465-467) reads back unchanged after that prefix, and not after the other service's |
| Series.ParseSeries | api/services/splat.py:475-497 | xs and ys have equal length and are, in order, the points of the lines that parse |
| Series.PointsAppend | api/services/splat.py:484-497 | the points of two blocks of lines are the points of each, concatenated (order preserved) |
| Series.PointsBound | api/services/splat.py:482-497 | there are never more points than lines; no parseable line means no points |
| Numbers.Round2 | api/services/splat.py:508 | `round(x, 2)` moves x by at most 0.005 |
| Numbers.Round2Idempotent | api/services/splat.py:622 | rounding an already rounded value changes nothing |
| Numbers.ParseFormatFixed | api/services/splat.py:836-838 | `%.Nf` text parses back to the value rounded to N places |
| Report.PlainRepr | api/services/splat.py:584-588 | the repr of printable text without quotes or backslashes is `b'` + text + `'` |
| Report.ExtractFloatAfterReadsBack | api/services/splat.py:504-511 | on a line of words where word idx is printed with `%.Nf`, the field reads back as that value rounded to two decimals |
| Report.ExtractFloatAfterRejects | api/services/splat.py:504-511 | a line with no word idx, or with a non-number there, gives no field |
| Report.FieldRoundedOnce | api/services/splat.py:618-633 | rounding the extracted field a second time changes nothing |
| Report.RowOf | api/services/splat.py:563-580 | a row is kept iff at least two of its comma-separated parts give a number; a kept row has at least two numbers |
| Report.ObstructionRowReadsBack | api/services/splat.py:563-580 | a row printed as a latitude and a west-positive longitude (with at least two places, on whole hundredths, longitude in [-180, 180)) is kept and gives back the latitude and the east-positive longitude |
| Report.BlockRowsHaveTwo | api/services/splat.py:561-581 | every row read from an obstruction block has at least two numbers |
| Report.FoldObstructed | api/services/splat.py:516-518 | each obstruction flag stays true unless some line holds its own clearance sentence |
| Report.FoldReadings | api/services/splat.py:590-616 | signal, free-space loss and distance are those of the last line that gives one, or none |
| Report.FoldLoss | api/services/splat.py:618-628 | the loss and its type are those of the last Longley-Rice or ITWOM line that gives one, ITWOM winning on the same line |
| Report.FoldMessages | api/services/splat.py:583-588 | each zone's message comes from its last advice line, or is empty |
| Report.FoldRows | api/services/splat.py:560-581 | every row read after any header is in the obstruction list |
| Report.FoldRowsFrom | api/services/splat.py:560-581 | every row in the obstruction list was read after some header |
| Report.ObstructionsHaveTwoNumbers | api/services/splat.py:576-580 | every reported obstruction has at least two numbers (which are the latitude and the east-positive longitude is stated by `Report.ObstructionListed`) |
| Report.ObstructionListed | api/services/splat.py:560-581 | such a printed row, on a line of the unbroken block that starts two lines below an obstruction header, is in the report's obstruction list with its latitude and east-positive longitude |
| Report.RowAtListed | api/services/splat.py:560-581 | any row kept from a line of the unbroken block that starts two lines below an obstruction header is in the report's obstruction list |
| Report.ReadRow | api/services/splat.py:563-580 | the loop over `, `-parts computes the row specification |
| Report.ReadBlock | api/services/splat.py:561-581 | the inner `j` loop reads the block from two lines after the header up to the first blank line |
| Report.FindLastNumber | api/services/splat.py:593-600 | the fallback returns round(x, 2) of the last token float() accepts, or nothing |
| Report.LastParse | api/services/splat.py:593-600 | the reversed token loop with its break stops at the last token float() accepts |
| Report.LastParsedIsLastMapped | api/services/splat.py:593-600 | that scan is the general last-accepted-token scan with float() |
| Text.LastMappedIsLast | api/services/splat.py:593-600 | the scan gives nothing exactly when float() rejects every token, and otherwise the value of an accepted token with only rejected tokens after it |
| Report.ClearZones | api/services/splat.py:553-558 | a flag is cleared only by its own sentence, earliest sentence first |
| Report.ReadObstructions | api/services/splat.py:560-581 | a header line appends its block's rows |
| Report.ReadAdvice | api/services/splat.py:583-588 | an advice line replaces its zone's message and leaves the others |
| Report.ReadWithFallback | api/services/splat.py:590-616 | a signal or loss line overwrites the field with the indexed token, else the last number, else keeps it |
| Report.ReadLossField | api/services/splat.py:618-628 | a Longley-Rice/ITWOM line that gives a value sets the loss and names its type |
| Report.ReadDistance | api/services/splat.py:630-633 | a distance line that gives a value overwrites the distance |
| Report.ParseReport | api/services/splat.py:513-650 | the index-driven scan computes the report specification |
| LosResult.RssiFor | api/services/splat.py:270-288 | for the request as the derivation reads it (gains already adjusted), a loss-based figure exists iff its loss does and equals tx_power + tx_gain − tx_loss − loss + rx_gain − rx_loss; a missing tx_loss makes it fail |
| LosResult.Derive | api/services/splat.py:254-319 | for the request as the derivation reads it (gains already adjusted), the result succeeds iff the signal is present, an obstructed path has a distance, and tx_loss is set when a loss is present; otherwise it names the failing operand; success gives the rx power, its obstruction-optimised value and both loss-based figures |
| LosResult.AdjustedFigures | api/services/splat.py:101-102 | derived from the adjusted request, the rx power carries the adjusted rx gain and each loss-based figure both adjusted gains; success needs exactly what it needs for the request as sent |
| LosResult.Predict | api/services/splat.py:262-288 | the prediction from the report's lines succeeds iff the parsed report has a signal, a distance on an obstructed path and tx_loss when a loss is used; the rx power is signal + adjusted rx gain − rx_loss, the optimised power adds 1.651 dB per unit of distance on an obstructed path, and each figure is tx_power + adjusted tx_gain − tx_loss − loss + adjusted rx_gain − rx_loss |
| LosResult.AdjustmentShift | api/services/splat.py:101-102 | against figures from the gains as sent, the rx power is 2.15 dB lower when rx_gain ≠ 0 and the free-space figure 2.15 dB lower per non-zero gain |
| LosResult.OptimizedNotBelow | api/services/splat.py:264-268 | the optimised power is never below the plain one and equals it iff the path is clear or its distance is 0 |
| LosResult.RssiDifference | api/services/splat.py:270-288 | the two loss-based figures differ by exactly the difference of the losses |
| LosResult.NoSignalLineFails | api/services/splat.py:254-313 | a report without a signal line always fails, through the unbound optimised power unless a missing loss operand fails first |
| LosResult.LosOutcome | api/services/splat.py:88-324 | the link prediction succeeds iff the tiles are fetched, the parameter file can be written, the command is built, the engine exits with 0 and the derivation succeeds, and then gives the derived figures; otherwise the first failing step's text reads back after `LosPrefix` |
| LosResult.LosOutcomeAsWritten | api/services/splat.py:188 | with the command as written, every link prediction fails, and once the tiles and the parameter file are in place the surfaced cause is the missing `itm_mode` attribute |
| LosResult.LosRunFailureSurfaces | api/services/splat.py:203-210 | a non-zero exit surfaces behind `LosPrefix` with its return code still readable and both captured streams |
| LosResult.CoverageFailure | api/services/splat.py:326-467 | the coverage prediction fails before its images iff the tile fill fails or the engine exits non-zero; the cause reads back after `CoveragePrefix` and never after `LosPrefix` |
| Jobs.StatusReply | api/main.py:61-74 | a missing or empty status gives 404; `failed` gives the stored error, and raises when the error is gone; any other status is echoed |
| Jobs.Store.SetEx | api/main.py:41 | the key holds the value until now + ttl, and nothing else changes |
| Jobs.Store.Predict | api/main.py:50-57 | submitting writes `processing` for the id with a one-hour lifetime and replies with the id |
| Jobs.Store.RunCoverage | api/main.py:34-47 | the worker writes `completed`, or `failed` plus the error, each for one hour, and re-raises on failure |
| Jobs.Store.GetStatus | api/main.py:60-74 | the endpoint answers what the query specification gives |
| Jobs.StepsKeepStatusesKnown | api/main.py:41-55 | submitting and finishing only ever store `processing`, `completed` or `failed` |
| Jobs.QueryAfterSubmit | api/main.py:54-65 | within the hour after submitting, the status is `processing`; afterwards 404 |
| Jobs.QueryAfterFinish | api/main.py:39-74 | within the hour after finishing, the status is `completed`, or `failed` with the error; afterwards 404 |
| Jobs.QueryReplies | api/main.py:61-74 | a query answers 404, `processing`, `completed`, `failed` with fields, or raises only when the error entry is gone |
| LosData.IndicesAt | app/src/utils.ts:34-35 | the sampled indices are 0, step, 2·step, … and all below n |
| LosData.ProcessedAligned | app/src/utils.ts:28-72 | the five output series always have equal length |
| LosData.FirstAlwaysKept | app/src/utils.ts:34-53 | the kept indices start at 0 and are the sampled ones, plus n−1 when it was missed |
| LosData.ProcessedEnds | app/src/utils.ts:44-71 | the output's first distance is 0 and its last is the input's last |
| LosData.ProcessedSameIndex | app/src/utils.ts:34-71 | every output position takes the same input index in all five series; a prepended point is distance 0 with each series' first entry |
| LosData.ProcessedLength | app/src/utils.ts:35-71 | the output has at most the sampled count plus two points |
| LosData.SampleEvery | app/src/utils.ts:34-41 | the stepped loop picks the same indices from all five series |
| LosData.ProcessLosData | app/src/utils.ts:12-80 | the function returns short profiles unchanged and down-samples longer ones as specified |
| Notifications.IndexOf | app/src/stores/notification.ts:28 | the index is the first entry with the id, or −1 iff there is none |
| Notifications.RemovedSpec | app/src/stores/notification.ts:27-30 | removing an absent id changes nothing; otherwise exactly the first matching entry goes and the others keep their order |
| Notifications.CloseUndoesAdd | app/src/stores/notification.ts:15-30 | closing a freshly added notification restores the list |
| Notifications.RemoveTwice | app/src/stores/notification.ts:20-23 | with unique ids, the delayed removal after a close changes nothing |
| Notifications.Store.Add | app/src/stores/notification.ts:15-24 | exactly one entry is appended; removal is scheduled iff hideAfter ≠ 0 |
| Notifications.Store.Close | app/src/stores/notification.ts:27-30 | the list becomes the list with that id removed |
| AnalyzeRun.BoolNotNumber | analyze/analyze_run.py:111-120 | a boolean cell is not a number |
| AnalyzeRun.IntKeepsValue | analyze/analyze_run.py:111-120 | an int of either sign keeps its value |
| AnalyzeRun.NumeralCellKeepsValue | analyze/analyze_run.py:111-120 | a numeral string keeps its value |
| AnalyzeRun.EmptyCellIsNone | analyze/analyze_run.py:114-116 | every cell that stripping empties gives none: blanks around double quotes around single quotes, each run possibly empty (a blank cell, `""`, `''`, ` "" `) |
| AnalyzeRun.NormalizeBoolReadsBack | analyze/analyze_run.py:123-134 | the text of a Python boolean normalises back to it; an empty cell is none |
| AnalyzeRun.Clock | analyze/analyze_run.py:383-384 | minutes and seconds are below 60 and h·3600 + m·60 + s is the whole second count |
| AnalyzeRun.DurationTextReadsBack | analyze/analyze_run.py:385-389 | each of the three forms `XhMMmSSs`, `MmSSs`, `Ss` reads back to its second count |
| AnalyzeRun.FormatDurationReadsBack | analyze/analyze_run.py:380-389 | the text reads back to the whole seconds, with negatives as 0 |
| AnalyzeRun.LiveBucket | analyze/analyze_run.py:736-747 | a prediction lands in exactly one bucket: line of sight over 60 % Fresnel over first Fresnel over clear |
| AnalyzeRun.SavedBucket | analyze/analyze_run.py:542-557 | a rebuilt row is clear only when all three flags are explicitly false, and joins no bucket when no flag is true and they are not all false |
| AnalyzeRun.CellUnder | analyze/analyze_run.py:534-540 | `row.get(name)` on a csv.DictReader row gives a cell under a column of that name, and none only when no column (within the row's length) carries it |
| AnalyzeRun.CellUnderLast | analyze/analyze_run.py:534-540 | a column whose name does not come again in the header gives its own cell |
| AnalyzeRun.FlagCellReadsBack | analyze/analyze_run.py:123-134 | a flag written to the CSV as `True`, `False` or an empty cell normalises back to the same flag |
| AnalyzeRun.FlagColumns | analyze/analyze_run.py:599-605 | read by the header's names, a site's line-of-sight, 60 % Fresnel and first-Fresnel flags are the row's sixth, seventh and eighth cells |
| AnalyzeRun.RebuildAsWritten | analyze/analyze_run.py:779-786 | a row written in the live run's order (path, first Fresnel, 60 % Fresnel) is rebuilt as SavedBucket with the two Fresnel flags traded |
| AnalyzeRun.AsWrittenSwapsFresnel | analyze/analyze_run.py:779-786 | flags (False, True, False) are first-Fresnel live but 60 % Fresnel when rebuilt, and (False, False, True) the other way round |
| AnalyzeRun.RebuildCorrected | analyze/analyze_run.py:534-557 | with the flags saved in the header's order, each flag reads back from its own column and the row is filed as SavedBucket of the live flags |
| AnalyzeRun.RebuildAgreesWithLive | analyze/analyze_run.py:534-557 | with the corrected layout, bool flags are rebuilt into the live bucket; a missing flag with no true flag is clear live but in no bucket when rebuilt |
| AnalyzeRun.Normalized | analyze/analyze_run.py:726-728 | the prediction becomes −abs(pred), and the difference is that minus the measured RSSI |
| AnalyzeRun.NormalizedIdempotent | analyze/analyze_run.py:726-728 | normalising twice equals normalising once |
| AnalyzeRun.SiteStats.Record | analyze/analyze_run.py:725-747 | one prediction appends its index, RSSI, normalised prediction and difference, and files them in its single bucket |
| AnalyzeRun.SiteStats.File | analyze/analyze_run.py:736-747 | filing adds exactly one entry to exactly one bucket and keeps the bucket lists paired |
| PlotDistributions.SafeName | analyze/plot_distributions.py:75-76 | the name keeps its length and holds only alphanumerics, `-` and `_` |
| PlotDistributions.SafeNameKeeps | analyze/plot_distributions.py:76 | allowed characters are kept and every other one becomes `_` |
| PlotDistributions.SafeNameIdempotent | analyze/plot_distributions.py:76 | sanitising twice equals once; a name is unchanged iff all its characters are allowed |
| PlotDistributions.ParseFloatNone | analyze/plot_distributions.py:63-72 | none, booleans, blank cells and unparseable cells give none |
| PlotDistributions.SleepMonotone | analyze/plot_distributions.py:102-108 | the pause never shrinks as time passes |
| PlotDistributions.PausesFrom | analyze/plot_distributions.py:94-108 | no pause is shorter than the one due when polling started |
| PlotDistributions.PausesSorted | analyze/plot_distributions.py:94-108 | the pauses taken are non-decreasing |
| PlotDistributions.PauseCount | analyze/plot_distributions.py:93-108 | the loop only pauses before the deadline, and at most one 200 ms pause per 200 ms left |
| PlotDistributions.PollTask | analyze/plot_distributions.py:91-110 | the loop returns on `completed`, raises on `failed`, times out after the deadline, pausing as specified |
| PlotDistributions.SweepOrder | analyze/plot_distributions.py:333-336 | every (s, t) in 0..100 appears at position s·101 + t, so exactly once and s-major |
| PlotDistributions.SweepSequential | analyze/plot_distributions.py:382-398 | the sequential branch records the successful points in sweep order |
| PlotDistributions.Refill | analyze/plot_distributions.py:344-351 | refilling submits tasks until the limit or the end, remembering the last point drawn |
| PlotDistributions.SweepParallelAsWritten | analyze/plot_distributions.py:340-381 | the parallel branch records, for each finished task, the last point drawn |
| PlotDistributions.AsWrittenMisplacesRows | analyze/plot_distributions.py:353-366 | with two tasks and one worker, both rows carry (0, 1) instead of (0, 0) and (0, 1) |
| PlotDistributions.RecordedNoLag | analyze/plot_distributions.py:353-366 | when each row carries its own task's point, the rows are the successful points in order |
| PlotDistributions.SweepParallel | analyze/plot_distributions.py:340-381 | the corrected parallel branch records the same rows as the sequential one |
| AntennaPattern.ScannedPoints | api/antenna_radiation_diagrams/visualize_antenna.py:41-48 | the angle and value lists are paired and are, in order, the lines whose first two tokens parse |
| AntennaPattern.RotationFixedAfterData | api/antenna_radiation_diagrams/visualize_antenna.py:31-36 | once a data point is read, the rotation no longer changes |
| AntennaPattern.FoldRotationBeforeData | api/antenna_radiation_diagrams/visualize_antenna.py:31-36 | before data the rotation is the last one-token line that parses, else 0 |
| AntennaPattern.BlankFileHasNoPoints | api/antenna_radiation_diagrams/visualize_antenna.py:25-27 | blank and `#` lines contribute nothing |
| AntennaPattern.ReadLines | api/antenna_radiation_diagrams/visualize_antenna.py:23-48 | the reading loop computes the pattern specification |
| AntennaPattern.LoadPattern | api/antenna_radiation_diagrams/visualize_antenna.py:23-52 | loading fails with the no-data error iff no line gives a point |
| AntennaPattern.Wrap | api/antenna_radiation_diagrams/visualize_antenna.py:54 | `% 360.0` lands in [0, 360) and differs from the input by whole turns |
| AntennaPattern.WrapKeepsTurn | api/antenna_radiation_diagrams/visualize_antenna.py:54 | an angle already in [0, 360) is unchanged |
| AntennaPattern.Turned | api/antenna_radiation_diagrams/visualize_antenna.py:54-55 | every rotated angle is in [0, 360) and keeps its value |
| AntennaPattern.SortByAngle | api/antenna_radiation_diagrams/visualize_antenna.py:63-65 | the points are sorted by angle and are a permutation of the input |
| AntennaPattern.ClosedCurve | api/antenna_radiation_diagrams/visualize_antenna.py:66-68 | a point at first angle + 360 with the first value is appended iff the first and last angles differ |
| AntennaPattern.DrawnShape | api/antenna_radiation_diagrams/visualize_antenna.py:54-68 | the drawn curve is the sorted rotated points, possibly closed by one point |
| AntennaPattern.Curve | api/antenna_radiation_diagrams/visualize_antenna.py:50-68 | the curve fails with the no-data error iff there are no points |
| AntennaPattern.CurveShape | api/antenna_radiation_diagrams/visualize_antenna.py:50-68 | with points, the curve is the drawn shape of the scanned pattern |

## Left out

- Subprocess execution, temporary directories, file reads and writes, and the
  HTTP tile download are I/O. Engine output enters as sequences of lines. The
  tile directory is a map from names to contents, and a download is a
  function parameter from URL to response.
- The initialisation that checks the SPLAT! binaries and the cache directory
  (api/services/splat.py:27-86) is a file-system check.
- `_save_all_files_from_tmpdir`, `_dir_content` and
  `_copy_antenna_pattern_files` move files.
- `_create_splat_dcf`, `create_splat_colorbar` and `_create_splat_geotiff`
  call matplotlib, PIL, rasterio and ElementTree.
- The JSON serialisation of the link result is out. `LosResult.Predict` gives
  the figures it carries, computed from the request with both gains adjusted.
- The `cos`/`pi` step that turns a radius into a degree box is floating-point
  trigonometry. `Tiles.CoverageTiles` takes the four floored bounds as inputs.
- `SiteFiles.ErpWatts` takes the power of ten `10 ** x` as a parameter.
  `SiteFiles.ErpWattsMonotone` assumes only that it is monotone.
- `str(float)` in the command arguments stays symbolic: a number with a suffix.
  Only `%.Nf` formatting and `round(., 2)` are modelled concretely.
- Floats are exact reals:
  - `Numbers.ParseFloat` reads the decimal subset of Python's `float()` (sign,
    digits, one dot).
  - Exponents, `inf`, `nan` and digit-group underscores (`1_0`) are not read.
  - Binary rounding of floats is not modelled.
- Whitespace and lower-casing are ASCII-only. Python's `str.strip`/`split`
  also treat other Unicode spaces as blanks, and `lower` folds non-ASCII letters.
- `PlotDistributions.SafeName` and `PlotDistributions.SafeNameKeeps` take
  `str.isalnum` on ASCII letters and digits only. Python also keeps non-ASCII
  letters and digits, so a name such as `Café` keeps its `é` there but gets
  `_` in the model.
- Byte decoding is the identity on text. The `utf-8` decoding with
  `errors="ignore"` only matters for invalid bytes, which SPLAT! does not write.
- `_decode_lines` and `splitlines` are not modelled. A report or series
  arrives already split into lines.
- api/models/CoveragePredictionRequest.py is not part of this model. The
  coverage request's fields are those `coverage_prediction` reads.
- Redis is a map from keys to a value and an expiry time, with time as a
  parameter.
- FastAPI routing, CORS, background-task scheduling and the GeoServer upload
  (api/services/geoserver.py) are out.
- `uuid4` and `Math.random` ids are parameters.
- Thread pools are out:
  - the analysis run's ThreadPoolExecutor;
  - the sweep's executor, modelled as tasks completing in submission order;
  - the `setTimeout` of a notification, whose removal is the `Close` call that
    `Notifications.RemoveTwice` reasons about.
- The CSV, plotting, progress printing and HTTP code of the analysis scripts
  are out, except the saved CSV's column layout for one site: the row, lat
  and lon columns and that site's five columns. Other sites' columns are
  not modelled; their names carry another site's prefix.
- `Tiles.HgtToSdf`: gives none unless both numeric fields of the name are
  plain digits, while Python's `int()` also takes a sign, surrounding blanks
  and `_` separators. Every name `Tiles.TileName` produces has plain digits.
- The sequential branch of analyze/analyze_run.py:848-940 is out, because it
  follows a `continue` and cannot run.
- `AnalyzeRun.SiteStats.Record`: the `diff_values` list is left out, because
  it always equals `diff`.
- `AnalyzeRun.SiteStats`: the per-site `completed`, `failed` and
  `skipped_no_rssi` counters of analyze/analyze_run.py:139-141 are left out.
  They are read only by the summary printed at analyze/analyze_run.py:970.
- The pattern's conversion to dB and the polar plot (`clip`, `log10`,
  `deg2rad`) are floating-point plotting. The curve keeps the raw values.
- `LosData.ProcessLosData` requires the five series to have equal length. The
  JavaScript would read `undefined` past a shorter array's end.
- `PlotDistributions.PollTask` takes the request latency as a fixed number of
  milliseconds. Clock readings are a parameter.
- `LinkWalk.LosCells` follows the corrected walk, `LinkWalk.WalkCorrected`.
  The as-written walk is a fuel-bounded function, because it need not
  terminate (see Findings). The two agree wherever the as-written walk
  terminates.
- `AntennaPattern.SortByAngle`: tied angles keep their file order in the
  model (the insertion sort is stable). `np.argsort` with its default sort
  does not promise an order for ties, such as 0 and 360 turned to the same
  angle. Then the closing point's value can differ. The contracts state only
  sorted order and a permutation, which hold under either order.
- `LosResult.LosOutcome` and `LosResult.CoverageFailure`: Python's messages
  for a `None` operand, an unbound local and formatting a missing field depend
  on the interpreter's version, and are parameters. Other failures inside the
  two `try` blocks are not modelled: copying antenna files, writing and
  reading the engine's files, and the coverage image conversion after the run.
- The exact layout of SPLAT!'s obstruction rows is not modelled.
  `Report.ObstructionRowReadsBack` takes a row of the form the parser expects:
  numbers printed with `%.Nf` and a unit word, separated by `, `.

## Findings

| source | as written | input that shows it | evidently intended | confidence | as-written member | corrected member |
|---|---|---|---|---|---|---|
| api/services/splat.py:755-761 | on a tie `tMaxX == tMaxY` the walk steps in y, even when y is already at the destination row and only x is left to go | tx (lat 46.5, lon 13.5), rx (lat 46.0, lon 14.0): y steps to 45, past the receiver's row 46, and the loop never ends | step an axis only while it has not reached its destination, so the walk ends at the receiver's cell | not executed | LinkWalk.AsWrittenNeverArrives | LinkWalk.LosCells |
| api/services/splat.py:188 | the link command reads `request.itm_mode`, but the request declares `itm_model` (api/models/LosPredictionRequest.py:91) | any link request: the attribute read fails after the tiles are fetched, so every link prediction ends in an error | read `itm_model`, so `-olditm` follows the request's flag | not executed | Engine.LosCommandAsWrittenFails | Engine.LosCommandForItm |
| analyze/plot_distributions.py:353-366 | a finished task's row is recorded with the `s, t` last drawn from the sweep, not with the point stored for that task | two points, one worker: both rows carry (0, 1) | record the task's own `(s, t)`, popped from `in_flight` | not executed | PlotDistributions.AsWrittenMisplacesRows | PlotDistributions.SweepParallel |
| analyze/analyze_run.py:779-786 | each site's flags are written as path, first Fresnel, 60 % Fresnel, while the header (lines 599-605) names the columns line of sight, 60 % Fresnel, first Fresnel, and the rebuild (lines 534-540) reads them by name | live flags (False, True, False) are filed as first-Fresnel obstructed, but the rebuilt row reads True under `_fresnel_60_obstructed` and is filed as 60 % Fresnel obstructed | write the flags in the header's order, so a rebuild files every row as the live run did | not executed | AnalyzeRun.AsWrittenSwapsFresnel | AnalyzeRun.RebuildAgreesWithLive |
