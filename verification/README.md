# SunReye history movement: model and proofs

SunReye moves years of inverter history between databases and files. Its raw
hypertable, `metrics_raw`, has no unique key, so a row lost or written twice is
silent. This project models the code that guards against that and proves what it
guarantees:

* **the archive import and the in-place backfill**, as protocols that can be killed
  at any statement and started again: an attempt is a list of statements, a kill
  leaves the effect of a prefix, and the results hold for every sequence of kills;
* **the archive container**: the ustar header printer and parser after the "ustar
  Interchange Format" section of `pax` in POSIX.1-2017 (IEEE Std 1003.1-2017), the
  writer and the index, the line spool and the chunked line reader;
* **the replay and export planners**, which give every day of a span to one tier or
  report it as a gap, the export that reads through the plan, and what an import of
  that export puts back;
* **the drop gate** that decides whether the legacy tables may go;
* **counter arithmetic** across resets, and the seeded value model stated once as
  arithmetic and once as SQL;
* three compact algorithms: re-keying held register snapshots, comparing a restored
  database, and merging battery packs.

Times are integer milliseconds, a UTC day is a floor division by 86 400 000, values
are reals, a table is a sequence of rows. Where the source updates in place, so does
the model: a method or class with loops and invariants, proved equal to a function,
about which the lemmas are stated.

## Layout

| files | what they hold |
|---|---|
| `Wrappers`, `Reals`, `Database`, `Spans`, `Sorting` | option and result, the shared tables, spans that tile, a stable sort |
| `Ustar`, `TarArchive`, `LineStream` | the container |
| `Replay`, `ExportPlan`, `ExportRun`, `ChangeFilter` | planning and exporting |
| `ArchiveLoad` | placeholders, batches, routing by tier |
| `ArchiveImport`, `ImportSafety`, `ImportGuarantees`, `ImportCompletion`, `ImportCoverage`, `ImportRun` | the import: definitions, invariants, guarantees, what completion means, which readings arrive, the statement-by-statement run |
| `ArchiveRoundTrip` | export and import together |
| `RefreshWindows` | the windows that the aggregates are refreshed over |
| `Backfill`, `BackfillSafety`, `BackfillGuarantees`, `BackfillContents`, `BackfillCoverage`, `BackfillConfig`, `BackfillOrder`, `BackfillRun` | the backfill: definitions, crash equivalence, order, contents, coverage, configuration history in one chunk and over all of them, the driver |
| `DropGate`, `MigrationGate`, `MigrationCases` | the comparison, the comparison after a backfill, and migrations worked out in full |
| `CounterEnergy`, `ValueModel`, `HeadlineError` | counters, the value model, the closed form |
| `AutomationState`, `RestoreParity`, `PlantBattery` | the three compact algorithms |

## Where the code differs from what is said about it

* The export plans each UTC day by calling the replay planner on that day alone, so
  every day is both the first and the last of its plan and is clipped like an edge. A
  day in the middle of the history that a finer tier covers only in part is answered
  by that tier, and the rest of the day becomes a gap even when a coarser tier covers
  all of it (`ExportPlan.MorningIsLost`); an afternoon that only raw holds is lost
  when raw begins inside the day (`ExportPlan.AfternoonIsLost`). `ExportPlan.LossExactly`
  says for every instant whether it is lost.
* An import replays an archive by the windows of what it staged, under the rule for
  the middle of a span. A part of a day that the export wrote for a finer tier is
  not replayed when that tier does not cover the day: it is reported as a day that is
  not in the archive, and the import is marked complete
  (`ImportCoverage.MiddayReadingIsLost`; exactly when:
  `ImportCoverage.EveryReadingArrivesExactly`).
* An import that has several devices and nothing to write, killed between two markers,
  sets its scratch tables up again on the next attempt, so a kill there leaves one
  beside a marker. Nothing else does (`ImportCompletion.NoScratchExactly`).
* The drop gate bounds both sides by `replayTo`, the first retained raw sample, which
  as a rule falls inside a minute. That minute's bucket is replayed and the carried
  samples of the same minute land in it, so a migration with nothing wrong is refused
  unless they all repeat the bucket (`MigrationCases.SplitMinuteIsRefused`; exactly
  when: `MigrationGate.CleanMigrationVerifiedExactly`).
* The drop gate compares by the day, so it verifies a migration that has lost a minute
  when a coarser bucket of the same mean stands in for it
  (`MigrationCases.LossIsMasked`; exactly when: `MigrationGate.VerifiedAsForeseen`).
* The backfill replays every source id of the legacy tables, the drop gate reads only
  the recorded one on the legacy side and the whole device on the new one. A history
  that a renamed profile left under two ids is refused although all of it arrived
  (`MigrationCases.RenamedIsRefused`, `MigrationGate.OtherIdsAreRefused`). So is a day
  that only a coarser tier holds (`MigrationGate.DayWithoutMinutesIsRefused`).
* The comment on the drop gate presents the spread as what catches a double write
  inside one minute. It catches any value that differs and no value that repeats
  (`DropGate.ExtraSamplesAreCaught`).
* The comment on the configuration arm calls its comparison with the last row logged
  exact because chunks run in ascending time order. A backfill commits the carried
  window first and one source id after the other, so they do not. The log is right all
  the same when the chunks do not overlap and none comes after two that it lies
  between (`BackfillOrder.OrderIsExact`); two ids that alternate leave it with a value
  that is not the last one polled (`MigrationCases.RenamedBackMisreports`).
* `refreshWindows` with a chunk size that is not whole buckets leaves out the daily
  bucket astride a seam, unless one window covers everything
  (`RefreshWindows.CoverageExactly`). The merge keeps every window wide enough but
  does not repair that.
* A device whose rows all carry one timestamp has an empty written span, hence no
  refresh window, and reaches `backfilled` with its bucket not refreshed
  (`BackfillCoverage.MaterializedExactly`).
* The header printer accepts any non-negative size and any name of 1 to 100 bytes;
  the round trip holds up to and including 8 GiB and for names without a NUL
  (`Ustar.HeaderRoundTrip`).
* The change filter is keyed by `device metric`, joined by a space; a space in a
  device slug can make two series share a key (`ChangeFilter.CollisionLosesAPoll`).
* Re-keying snapshots can collide when one device is bound to two profiles
  (`AutomationState.LosslessExactly`).
* The SQL model clamps after multiplying by the peak and the arithmetic before; a
  negative peak would separate them (`ValueModel.AgreementIsExact`).
* Merging packs of no capacity is not associative over groups of different sizes
  (`PlantBattery.MergingComposes`).

## Model

| member | source | states |
|---|---|---|
| ImportGuarantees.ImportIsAtMostOnce | packages/db/src/archive-import.ts:204-265 | Over every sequence of unforced attempts, each killed after any number of statements, from a target with no row in the archive's span, no archive row is in `metrics_raw` more often than in the archive |
| ImportGuarantees.AddedAtMostOnce | packages/db/src/archive-import.ts:1224-1322 | From any target, whatever progress it records: the old rows stay in front, and all rows ever added are a sub-multiset of the archive's rows |
| ImportGuarantees.CompleteIsKept | packages/db/src/archive-import.ts:1058-1090 | A complete import carries each raw reading, and each bucket reading that some chunk selects, exactly once and nothing else (which those are: `ImportCoverage.ReadingIsReplayedExactly`) |
| ImportGuarantees.EveryRunIsSound | packages/db/src/archive-import.ts:151-168 | Invariant of every reachable target: the rows added are a prefix of a complete import, a completion marker means all of them, and a watermark without rows belongs to a chunk without rows |
| ImportGuarantees.SkipMeansComplete | packages/db/src/archive-import.ts:225-233 | An attempt that skips finds a complete import: progress is never mistaken for completion |
| ImportGuarantees.PartialImportIsRefused | packages/db/src/archive-import.ts:249-258 | An import killed with some but not all rows in place is refused by every later unforced attempt |
| ImportGuarantees.FinishedImportIsFinal | packages/db/src/archive-import.ts:1099-1123 | After one attempt that ran to its end every later attempt skips and changes nothing |
| ImportGuarantees.ProceedsExactly | packages/db/src/archive-import.ts:866-881 | An attempt proceeds if and only if some device lacks its marker and the target holds no row of the archive's devices in its span |
| ImportGuarantees.AllMarkedSkips | packages/db/src/archive-import.ts:1141-1199 | Markers for all devices make the verdict skip: distinct devices are counted, whatever their chunk starts |
| ImportGuarantees.VerdictExactly | packages/db/src/archive-import.ts:204-265 | Each of the three verdicts from the tables alone: skip when as many devices carry a marker as the archive has; refuse, partial or foreign, when rows lie in its span and nothing forces it; proceed otherwise |
| ImportGuarantees.UnknownDeviceIsRefused | packages/db/src/archive-import.ts:1141-1199 | A slug that the target does not know refuses the import, forced or not |
| ImportCompletion.CompletionIsLast | packages/db/src/archive-import.ts:1091-1123 | Over every sequence of killed attempts: once a completion marker stands, every row is in, and minutes, hours and days have been refreshed in this order over the whole archive with all of its rows there |
| ImportCompletion.EveryRunIsInTurn | packages/db/src/archive-import.ts:1091-1098 | Invariant of every reachable target: no refresh before the last row, none coarser before the finer one, no marker before all three |
| ImportCompletion.NoScratchExactly | packages/db/src/archive-import.ts:1055-1123 | No marker ever stands beside a scratch table if and only if the import has a row to write, one device only, no bucket tier, or never starts |
| ImportCompletion.RecordsAre | packages/db/src/archive-import.ts:1099-1123 | Whatever a run records is a chunk under the archive's source or a device's completion under that source and `#done`, at the archive's first instant |
| ImportSafety.EachReadingSelectedOnce | packages/db/src/archive-import.ts:1077-1086 | No staged reading is selected by two chunks of two devices or days, and no raw reading by any |
| ImportSafety.UnitKeysDistinct | packages/db/src/replay-run.ts:335-348 | No two chunks of an import share a `(source, device, chunk_start)` watermark |
| ImportSafety.LoadPuts | packages/db/src/archive-import.ts:962-1011 | Batching loses and reorders nothing: each relation receives its own tier's readings in file order |
| ImportSafety.LoadFills | packages/db/src/archive-import.ts:655-668 | A finished load has every declared tier in its staging table, whatever an earlier attempt left there |
| ImportSafety.LoadPrefix | packages/db/src/archive-import.ts:962-1011 | A load killed anywhere has inserted a prefix of the raw readings and recorded nothing |
| ImportSafety.ReplayRuns | packages/db/src/replay-run.ts:541-552 | A replay writes exactly the rows of the chunks not yet watermarked, and watermarks all of them |
| ImportSafety.RunShape | packages/db/src/archive-import.ts:1224-1322 | Where a killed attempt can have got to: inside the load, or some number of chunks in, with no marker before the last |
| ImportRun.Importer.ImportArchive | packages/db/src/archive-import.ts:1224-1322 | The statement-by-statement run, killed anywhere, has the effect the protocol assigns to that kill point: about those, `ImportGuarantees` and `ImportCompletion` are stated |
| ImportRun.Importer.LoadReadings | packages/db/src/archive-import.ts:962-1011 | The loading loop executes the batch inserts of the specification, in order |
| ImportRun.Importer.ReplayStaged | packages/db/src/archive-import.ts:1058-1090 | The device and chunk loops, planning from the staging tables as they stand, execute the planned chunks in order |
| ImportRun.Importer.ReadWindows | packages/db/src/replay-run.ts:277-301 | The windows read from staging are those of the archive's own readings |
| ImportRun.Importer.Finish | packages/db/src/archive-import.ts:1091-1123 | Staging is dropped, then the three aggregates are refreshed, then the markers written, killed anywhere; what that order guarantees is `ImportCompletion.CompletionIsLast` |
| ImportRun.LoaderFillsTheSame | packages/db/src/archive-import.ts:962-1011 | The loader that reads lines and the load of the protocol put the same rows into every table |
| ImportRun.LoadableLines | packages/db/src/archive-import.ts:985-1008 | A load that no line stops holds only readings of declared tiers, as the protocol asks of an archive |
| ImportCoverage.ReadingIsReplayedExactly | packages/db/src/replay-run.ts:517-552 | A staged reading is replayed by exactly one chunk if it is not configuration and its device's own staged windows give its instant to its tier, and by none otherwise |
| ImportCoverage.EveryReadingArrivesExactly | packages/db/src/archive-import.ts:1058-1090 | A complete import carries every reading that is not configuration if and only if those windows answer each staged one |
| ImportCoverage.OneTierArrives | packages/db/src/archive-import.ts:1058-1090 | An archive whose buckets are all of one tier always arrives in full |
| ImportCoverage.MiddayReadingIsLost | packages/db/src/archive-import.ts:1077-1086 | An archive with a reading that is staged and never replayed, though the import is complete |
| ArchiveLoad.PlaceholdersBind | packages/db/src/archive-import.ts:695-699 | Placeholder `r*columns+c+1` binds column `c` of row `r`, and no other placeholder does |
| ArchiveLoad.StatementInsertsRows | packages/db/src/archive-import.ts:712-731 | A multi-row statement inserts exactly the rows it was made from |
| ArchiveLoad.InsertRows | packages/db/src/archive-import.ts:712-731 | All rows are inserted in order, in non-empty statements of at most a batch, and the count is their number |
| ArchiveLoad.BatchWriter.Push | packages/db/src/archive-import.ts:947-950 | A push adds the row to what the writer was handed; batches stay non-empty and within size |
| ArchiveLoad.BatchWriter.Flush | packages/db/src/archive-import.ts:936-942 | A flush hands everything over and leaves nothing pending; an empty one inserts nothing |
| ArchiveLoad.Loader.LoadReadings | packages/db/src/archive-import.ts:962-1011 | Each table gets exactly its tier's rows in file order; a bad line or an undeclared tier stops the load at that line with everything in front of it routed |
| ArchiveLoad.LineBecomesRow | packages/db/src/archive-import.ts:985-1008 | A line becomes the row of its tier at the place its turn gives, with time, value, metric and duration as written and the device as the map renames it |
| ArchiveLoad.FirstProblemExactly | packages/db/src/archive-import.ts:985-1008 | A load stops if and only if some line is unreadable or of an undeclared bucket tier, and reports the first such line by its number |
| ArchiveLoad.SpanHoldsReadings | packages/db/src/archive-import.ts:1021-1024 | The widened span holds every reading and has one at each end |
| Ustar.TarHeader | packages/db/src/archive.ts:537-560 | The 512 header bytes for a name and size, and the refusals |
| Ustar.WriteChecksum | packages/db/src/archive.ts:529-534 | The checksum field in place, computed with the field itself read as spaces |
| Ustar.VerifyChecksum | packages/db/src/archive.ts:607-622 | The running sum decides the stored checksum |
| Ustar.ParseTarHeader | packages/db/src/archive.ts:588-598 | End of archive, refusal, or the header's name and size |
| Ustar.HeaderRoundTrip | packages/db/src/archive.ts:537-598 | Parsing a printed header returns its name and size if and only if the name holds no NUL and the size is at most 8 GiB |
| Ustar.HeaderIsUstar | packages/db/src/archive.ts:537-560 | The fields at the offsets the format gives them, byte by byte: name and padding, mode, owner, time, type, magic and version |
| Ustar.HeaderReadExactly | packages/db/src/archive.ts:588-641 | What any bytes are read as: each refusal, the end marker, and each name and size, if and only if a condition on the block, its sum and its two number fields |
| Ustar.FieldReadsExactly | packages/db/src/archive.ts:607-641 | A number field holds a value if and only if blanks, at most one sign and a run of octal digits stand at its front, and the run is that value |
| Ustar.ByteChangeRefused | packages/db/src/archive.ts:607-622 | In any accepted block, changing any one byte outside the checksum field is refused |
| Ustar.ChecksumOfPrinted | packages/db/src/archive.ts:529-534 | Every printed header satisfies the reader's checksum and is not an end block |
| Ustar.ValueOfDigits | packages/db/src/archive.ts:521-522 | Reading printed octal digits gives the number back |
| TarArchive.WriteArchive | packages/db/src/archive-file.ts:142-153 | The members' headers, bodies and padding in order, then two zero blocks; refused exactly when a name does not fit |
| TarArchive.IndexTar | packages/db/src/archive-file.ts:188-217 | The header-to-header walk computes the index specified for the file, and ends |
| TarArchive.IndexInvertsWrite | packages/db/src/archive-file.ts:188-217 | Every member of a written archive is found with its name, size and exact body bytes |
| TarArchive.TruncationIsAllOrNothing | packages/db/src/archive-file.ts:188-217 | A prefix of an archive is indexed in full or refused, never in part; it is refused exactly when more than the last zero block is missing |
| TarArchive.IndexIsLaidOut | packages/db/src/archive-file.ts:188-217 | For arbitrary bytes, an accepted index describes disjoint block-aligned bodies inside the file |
| TarArchive.IndexExactly | packages/db/src/archive-file.ts:188-217 | For arbitrary bytes, a file is indexed with a member list if and only if readable headers, block by block, describe it up to a blank block and every body lies inside the file |
| TarArchive.CorruptHeaderRefused | packages/db/src/archive-file.ts:196-206 | One changed byte in any header of an archive, outside its checksum, refuses the archive |
| TarArchive.TarPadding | packages/db/src/archive.ts:490-490 | Less than a block, and enough to reach the next boundary |
| LineStream.LineSpool.Write | packages/db/src/archive-file.ts:120-125 | A line and its newline are appended to what the spool holds, buffered or not, and counted once |
| LineStream.LineSpool.Flush | packages/db/src/archive-file.ts:109-114 | Buffered lines reach the compressor in order |
| LineStream.ReadLines | packages/db/src/archive-file.ts:278-300 | However the text is cut into chunks, the lines are those of the whole text |
| LineStream.SpoolThenRead | packages/db/src/archive-file.ts:101-134 | Newline-free lines come back exactly, in order, for every flush threshold and chunking, and the count is their number |
| LineStream.JoinedLinesOf | packages/db/src/archive-file.ts:291-299 | Reading loses nothing: the lines give the text back, up to a missing last newline |
| ArchiveRoundTrip.HistoryComesBackExactly | packages/db/src/archive-import.ts:204-265 | An export, imported by any number of killed attempts until one finds nothing to do, has added exactly the exported history to the other database, row for row with the duration each was stored with, if and only if the windows of each device in the file answer its staged readings |
| ArchiveRoundTrip.ExportIsConsistent | packages/db/src/archive-export.ts:981-999 | The manifest an export writes is true of its readings: span, tiers and devices are what the import's guarantees ask for |
| ArchiveRoundTrip.ManifestIsExact | packages/db/src/archive-export.ts:981-999 | A manifest declares exactly the tiers its readings are of, and the least span that encloses the plan |
| ArchiveRoundTrip.OneBucketTierComesBack | packages/db/src/archive-import.ts:1058-1090 | A plan that uses one bucket tier at most, besides raw, meets the condition of the round trip |
| ArchiveRoundTrip.RawHistoryComesBack | packages/db/src/archive-import.ts:1224-1322 | A history that raw answers throughout comes back with one finished attempt, whatever progress the target remembers |
| ArchiveRoundTrip.FileHoldsHistory | packages/db/src/archive-export.ts:871-911 | The file holds each row of the tier that answers its instant as often as it is stored, without configuration and rows without a value |
| ArchiveRoundTrip.CarriedReordered | packages/db/src/archive-export.ts:871-911 | The order in which tiers and windows are visited does not change which rows come back, nor how often |
| ArchiveRoundTrip.RawArchiveRows | packages/db/src/archive-import.ts:930-1011 | An archive with raw readings only is imported row for row, with no chunk to replay |
| Replay.PlanReplay | packages/db/src/replay.ts:347-364 | The cursor loop produces the pieces of the plan, work and gaps apart |
| Replay.ReplayTiles | packages/db/src/replay.ts:347-364 | Chunks and gaps partition the requested span in order, with no overlap |
| Replay.ReplayAnswersFromWindows | packages/db/src/replay.ts:197-240 | Every chunk lies inside the window of the tier that answers it |
| Replay.ReplayAnswersExactly | packages/db/src/replay.ts:161-260 | A chunk of a tier holds an instant if and only if the tier holds it, can answer its day piece (whole inside the span, up to one end at the first and last piece), and no finer tier can |
| ExportPlan.PlanExport | packages/db/src/archive-export.ts:129-182 | The export loop produces the pieces of its plan |
| ExportPlan.ExportTiles | packages/db/src/archive-export.ts:129-182 | Chunks and gaps partition the export span in order |
| ExportPlan.EachInstantPlannedOnce | packages/db/src/archive-export.ts:118-182 | No instant is given to two chunks |
| ExportPlan.RawAnswersExactly | packages/db/src/archive-export.ts:158-161 | Raw answers an instant if and only if its window has begun by the start of the day piece and ends after it |
| ExportPlan.BucketAnswersExactly | packages/db/src/archive-export.ts:167-179 | A bucket tier answers an instant if and only if raw does not, the tier holds it and reaches an end of its day piece, and no finer tier reaches one |
| ExportPlan.GapsExactly | packages/db/src/archive-export.ts:129-182 | An instant is in a gap of the plan exactly when raw does not answer it and no tier that holds it is the finest to reach an end of its day piece |
| ExportPlan.LossExactly | packages/db/src/archive-export.ts:167-179 | For every instant of the span: it is reported as a gap although some tier, raw included, holds it, if and only if a condition on the windows and its day piece |
| ExportPlan.MorningIsLost | packages/db/src/archive-export.ts:167-179 | Windows under which a morning is lost that the replay planner gives to the daily tier |
| ExportPlan.AfternoonIsLost | packages/db/src/archive-export.ts:158-179 | Windows under which an afternoon is lost that raw holds |
| ExportPlan.PlanFor | packages/db/src/archive-export.ts:733-739 | The plan over everything the windows hold, from the earliest start to the latest end |
| ExportPlan.WindowsOf | packages/db/src/archive-export.ts:200-211 | The sub-windows of a chunk |
| ExportPlan.SubWindowsTile | packages/db/src/archive-export.ts:200-211 | Sub-windows tile their chunk and none is longer than the tier allows |
| ExportPlan.QueryWindowsAre | packages/db/src/archive-export.ts:192-211 | Raw is queried a day at a time, minutes by 30 days, hours by 365, days by 3650, and only the last window of a chunk is shorter |
| ExportRun.ExportSink.WriteReadings | packages/db/src/archive-export.ts:871-911 | The nested loops feed the sink the visits of the plan, in order |
| ExportRun.ExportSink.WriteRow | packages/db/src/archive-export.ts:790-833 | One row's effect on the file, the counts, the identities and the configuration log; a raw row keeps its own duration, a bucket has its width |
| ExportRun.EachRowVisitedOnce | packages/db/src/archive-export.ts:841-911 | Every row of a tier is visited exactly as often as it is stored when one of the tier's chunks holds it, and never otherwise |
| ExportRun.ReadSourceWindows | packages/db/src/archive-export.ts:719-730 | The loop reads one window for each tier that has rows |
| ExportRun.WindowsFrame | packages/db/src/archive-export.ts:369-408 | A window is there if and only if its tier is read and has rows: from the first one's time to one millisecond past the last raw row, or the end of the last bucket |
| ExportRun.EveryRowIsPlanned | packages/db/src/archive-export.ts:369-408 | Every row of every tier that is read, the last one included, lies in the planned span |
| ExportRun.ExportReadsExactly | packages/db/src/archive-export.ts:733-911 | A whole export visits a row of any tier as often as it is stored when its tier answers its instant, in terms of the windows, and never otherwise |
| ExportRun.SinkIsFaithful | packages/db/src/archive-export.ts:790-833 | The manifest tells the truth: readings in order, counts, every device and metric named, configuration collapsed |
| ExportRun.PlanVisitsInOrder | packages/db/src/archive-export.ts:871-911 | Each series is visited in time order across windows, chunks and tiers |
| ExportRun.ExportKeepsConfigHistory | packages/db/src/archive-export.ts:804-815 | At every instant the exported log gives each setting the value last polled |
| ChangeFilter.Filter.Changed | packages/db/src/archive-export.ts:227-236 | True exactly for a value other than the last one remembered under the key, which is what the export's rows are filtered by |
| ChangeFilter.StepsPreserved | packages/db/src/archive-export.ts:227-236 | For polls in time order the last logged value of a series is its last polled one, at every instant |
| ChangeFilter.LogIsCollapsed | packages/db/src/archive-export.ts:227-236 | No two consecutive logged values of a key are equal, and collapsing again changes nothing |
| ChangeFilter.FaithfulIffKeysInjective | packages/db/src/archive-export.ts:804-815 | History is preserved for every stream over a set of series if and only if their keys differ |
| ChangeFilter.SpaceFreeDevicesSuffice | packages/db/src/archive-export.ts:804-815 | Device slugs without spaces are enough for that |
| ChangeFilter.CollisionLosesAPoll | packages/db/src/archive-export.ts:804-815 | Two series under one key lose the second one's poll |
| BackfillSafety.BackfillIsCrashEquivalent | packages/db/src/backfill-run.ts:171-219 | However often it is killed and restarted: the stage is `backfilled` if and only if the database is what one clean run leaves |
| BackfillSafety.ReachableIsPrefix | packages/db/src/backfill-run.ts:24-31 | Every reachable database is one that the uninterrupted run passes through |
| BackfillSafety.Resumes | packages/db/src/replay-run.ts:541-552 | Starting over from a killed run reaches what the run itself would have reached |
| BackfillSafety.SameProgram | packages/db/src/backfill-run.ts:280-304 | A restarted attempt plans the same statements, refresh windows included |
| BackfillSafety.RunsExactlyWhenUnderWay | packages/db/src/backfill-run.ts:171-185 | With a source id and a migration cut over, carried or deferred, every run can be brought to `backfilled`; in any other stage, or without a source id, no attempt changes anything |
| BackfillGuarantees.CleanRunWrites | packages/db/src/replay-run.ts:358-390 | A clean run adds every chunk's rows once, and the configuration log chunk by chunk |
| BackfillGuarantees.WatermarksAreInjective | packages/db/src/backfill.ts:57-59 | Two source ids never share a watermark, whichever is the primary |
| BackfillGuarantees.WatermarksAre | packages/db/src/backfill.ts:54-59 | The names that progress is kept under: the primary keeps the bare one, every other id is appended |
| BackfillGuarantees.RefreshesAre | packages/db/src/backfill-run.ts:280-304 | The names that refreshed windows are recorded under, tier by tier |
| BackfillGuarantees.CarriedMeansCarried | packages/db/src/backfill-run.ts:186-206 | In every run, stage `carried` means that the retained raw window is in, and nothing is replayed or refreshed before it |
| BackfillGuarantees.NothingToCarry | packages/db/src/backfill-run.ts:186-206 | Without retained raw samples the stage is never `carried` |
| BackfillGuarantees.NamespacesAreApart | packages/db/src/backfill.ts:301-304 | Carry, replay and refresh progress can never be mistaken for each other |
| BackfillGuarantees.RowKeysDistinct | packages/db/src/backfill-run.ts:146-166 | No two chunks of a backfill, over all its sources and the carry, share a watermark |
| BackfillGuarantees.HourlyBeforeDaily | packages/db/src/backfill.ts:61-61 | In every run, no daily window is refreshed or recorded before every hourly window is recorded |
| BackfillGuarantees.RefreshesSeeEveryRow | packages/db/src/backfill-run.ts:207-216 | In every run, no window is refreshed before the last row is in |
| BackfillCoverage.EveryBucketIsMaterialized | packages/db/src/backfill-run.ts:280-304 | At `backfilled`, with whole-day chunks, each bucket with a row of the device in it lies wholly in exactly one window, refreshed when all rows were in |
| BackfillCoverage.MaterializedExactly | packages/db/src/backfill-run.ts:254-304 | At `backfilled`, every bucket that the written span touches has been refreshed from all of the rows if and only if the rows have more than one instant and the step is whole buckets or one window holds everything |
| BackfillCoverage.EachBucketReplayedOnce | packages/db/src/replay-run.ts:400-436 | The replay writes a row as often as there are legacy buckets that become it in the tier answering their instant, and no instant is answered twice |
| BackfillConfig.ChunkingIsInvisible | packages/db/src/replay-run.ts:438-501 | However the history is cut into chunks, committing them in order logs exactly the changes of the whole history at once |
| BackfillConfig.LogHoldsLastPoll | packages/db/src/replay-run.ts:452-501 | After a chunk the log's last value of each metric is the last one polled, or the one before it |
| BackfillConfig.IdUnitsInTimeOrder | packages/db/src/replay-run.ts:517-552 | The replay of one source id commits its chunks in time order, as that needs |
| BackfillOrder.ConfigHistoryIsKept | packages/db/src/backfill-run.ts:125-219 | For every run of a backfill that reports `backfilled`, any source ids, on a server that has been logging since a horizon: at every instant the log says what it would say if every poll had been logged, provided the chunks are committed in an order that loses nothing, measured from each chunk's start to its last poll |
| BackfillOrder.OrderIsExact | packages/db/src/replay-run.ts:438-501 | Which orders of commits those are: over every content of the chunks the log is right at every instant if and only if no two chunks overlap and none is committed after two others that it lies between, the earlier of which came first |
| BackfillOrder.RunOrderIsExact | packages/db/src/backfill-run.ts:146-166 | The same for the chunks of a migration, carry and all source ids |
| BackfillOrder.OneIdIsCommittable | packages/db/src/backfill-run.ts:146-166 | One source id over relations in time order, carried from the bound on, always has such an order |
| BackfillOrder.Anchor | packages/db/src/replay-run.ts:474-490 | Every poll leaves a row of its metric behind: within its chunk and not after it, or in an earlier commit before the chunk, which it was compared with |
| MigrationCases.RenamedBackMisreports | packages/db/src/replay-run.ts:452-501 | A migration of two source ids in turn whose finished run logs a value that is no longer the one polled |
| BackfillRun.Driver.RunBackfill | packages/db/src/backfill-run.ts:171-219 | The statement-by-statement driver, killed anywhere, has the effect the protocol assigns to that kill point; it runs if and only if there is a source id and the stage is `cutover`, `carried` or `deferred` |
| BackfillRun.Driver.CarryLegacyRaw | packages/db/src/upgrade-120-run.ts:496-513 | The carry commits the retained raw window through the same replay, under its own watermark |
| BackfillRun.Driver.ReplayEverySource | packages/db/src/backfill-run.ts:125-169 | One pass per source id, chunks in order |
| BackfillRun.Driver.RefreshTiers | packages/db/src/backfill-run.ts:280-304 | Tiers in refresh order, each window refreshed and then recorded |
| RefreshWindows.RefreshWindows | packages/db/src/backfill.ts:91-141 | The cursor loop and the trailing merge produce the specified windows |
| RefreshWindows.WindowsReachAndFit | packages/db/src/backfill.ts:91-141 | For every chunk size: contiguous, at least a bucket past both ends, and each at least a bucket wide |
| RefreshWindows.WholeStepsCoverOnce | packages/db/src/backfill.ts:100-117 | With a step of whole buckets: aligned, no merge, and every bucket wholly in exactly one window |
| RefreshWindows.CoverageExactly | packages/db/src/backfill.ts:118-141 | Every touched bucket is covered if and only if the step is whole buckets or there is a single window |
| DropGate.GateIsExact | packages/db/src/backfill.ts:224-283 | No problem if and only if there is something to compare and every metric-day has equal bucket counts, flat new buckets and close means |
| DropGate.MeanDecides | packages/db/src/backfill.ts:195-255 | A metric-day with equal counts and flat buckets is refused if and only if its two means lie more than 0.000000001 apart, times the larger of one and the legacy mean |
| DropGate.ReportIsExact | packages/db/src/backfill.ts:224-283 | Which problem a metric-day is reported with, from the two lists of values: none replayed, some lost, more than there were, a different mean, or a bucket that is not flat |
| DropGate.RowsAreJudgedInOrder | packages/db/src/backfill.ts:224-283 | Whatever rows are read: each is judged on its own, in order, and reported with the first check it fails, a missing mean included |
| DropGate.MetricDaysAreComparedOnce | packages/db/src/backfill-run.ts:407-463 | The join has one row at most for a metric-day, whichever side it comes from |
| DropGate.CleanReplayPasses | packages/db/src/backfill.ts:224-283 | A replay of one row per legacy bucket, in any order, is always accepted |
| DropGate.GateComparesDistinctSamples | packages/db/src/backfill.ts:224-283 | Acceptance in terms of the samples: with exact repeats struck out there is one value a minute, and every metric-day has the count and the mean of the legacy side |
| DropGate.ExtraSamplesAreCaught | packages/db/src/backfill.ts:258-271 | Samples on top of accepted ones are accepted if and only if each of them is an exact repeat |
| DropGate.DuplicateIsInvisible | packages/db/src/backfill.ts:258-271 | The blind half of that: an exact repeat leaves every figure of the comparison as it was |
| DropGate.GateOverReplay | packages/db/src/backfill.ts:224-283 | Over a replay of every legacy bucket, acceptance means that every other sample repeats one of them |
| DropGate.NoSpreadIsFlat | packages/db/src/backfill.ts:265-271 | Zero spread means every bucket of the day is flat |
| MigrationGate.VerifiedExactly | packages/db/src/backfill-run.ts:363-396 | The stage becomes `verified` if and only if the comparison agrees everywhere and no configuration reached the hypertable |
| MigrationGate.VerifyTouchesTheStage | packages/db/src/backfill-run.ts:363-396 | Without a source id or a bound there is no report; otherwise there is one, and at most the stage changes, when the report is empty |
| MigrationGate.VerifiedAsForeseen | packages/db/src/backfill-run.ts:363-463 | Whether any migration will be verified, for every `replayTo`, source ids, tiers and kills, from what it starts with: something to compare, one value a minute, every metric-day with the count and the mean of the legacy minutes, and no configuration in the hypertable before |
| MigrationGate.SamplesAreForeseen | packages/db/src/backfill-run.ts:407-463 | What the comparison will read, exactly: the values that were there, are carried, or are replayed from the buckets that the plan of their id answers |
| BackfillContents.BackfillHoldsForeseen | packages/db/src/backfill-run.ts:125-219 | A finished backfill holds a row if and only if it was there, is a retained sample of the recorded id, or is a bucket of some id in the tier that answers its instant |
| MigrationGate.CleanMigrationVerifiedExactly | packages/db/src/backfill-run.ts:363-463 | A migration that loses no legacy minute, or adds no value of its own, is verified if and only if it does neither, has something to compare, and no configuration was in the hypertable |
| MigrationGate.PlainMigrationVerifiedExactly | packages/db/src/backfill-run.ts:363-463 | One source id, nothing else below the bound, any history and any tiers beside the minute tier, a first day that the coarser tiers hold from midnight included: verified if and only if the windows let the minute tier answer every legacy minute, there is one, and no configuration was in the hypertable |
| MigrationGate.DayWithoutMinutesIsRefused | packages/db/src/backfill-run.ts:407-463 | A value on a metric-day for which the legacy minute tier has nothing refuses the migration |
| MigrationGate.OtherIdsAreRefused | packages/db/src/backfill-run.ts:407-463 | A value that another source id writes into a minute in which the recorded id lacks it refuses a migration that loses nothing |
| MigrationGate.WholeMinuteBoundIsVerified | packages/db/src/backfill-run.ts:363-463 | With a bound on a whole minute, and everything carried or already there from it on, the same holds without asking where the samples lie |
| MigrationCases.SplitMinuteIsRefused | packages/db/src/upgrade-120-run.ts:361-371 | A migration with nothing wrong whose bound falls inside a minute, and which is not verified |
| MigrationCases.RenamedIsRefused | packages/db/src/backfill-run.ts:148-161 | A migration of two source ids that replays every bucket of both, and which is not verified |
| MigrationCases.FromNoonIsVerified | packages/db/src/replay.ts:186-240 | A history that begins at noon, with daily and hourly buckets of the same day: the morning is a gap, and the migration is verified |
| MigrationCases.LossIsMasked | packages/db/src/backfill-run.ts:363-463 | A migration that loses a minute and is verified: the midnight bucket of its day has the same mean and stands in for it |
| MigrationCases.MidnightBucketDecides | packages/db/src/backfill-run.ts:363-463 | The same migration for every value of that coarser bucket: verified if and only if it lies within 5.0e-9 of the value that was lost |
| BackfillContents.CarryWritesExactly | packages/db/src/upgrade-120-run.ts:496-513 | The carry writes each retained sample of the id that has a value and is not configuration, and nothing else |
| BackfillContents.PollsAreForeseen | packages/db/src/replay-run.ts:400-501 | What is logged as configuration: the rows of settings that the same carry and replay would otherwise write |
| BackfillContents.RunIsSplit | packages/db/src/replay-run.ts:400-501 | Every row of a run goes to exactly one of the two, in order: a setting to the log, anything else to the hypertable |
| DropGate.GateWithinLegacy | packages/db/src/backfill.ts:224-283 | When the new side holds nothing but legacy values, acceptance means that it holds all of them |
| CounterEnergy.ByMetric | packages/db/src/counter-energy.ts:72-83 | Readings grouped by metric, each group stably sorted by time |
| Sorting.SortSorts | packages/db/src/counter-energy.ts:79-81 | The library's stable sort orders and permutes |
| CounterEnergy.IncrementsByDay | packages/db/src/counter-energy.ts:108-123 | One row per day with a step: the day's energy and resets |
| CounterEnergy.NaiveByDay | packages/db/src/counter-energy.ts:129-141 | The day's maximum less its minimum |
| CounterEnergy.NaiveIsTheSpread | packages/db/src/counter-energy.ts:129-141 | That range bounds the day's readings and both ends are attained |
| CounterEnergy.PerDayEnergy | packages/db/src/counter-energy.ts:96-105 | The table of all metrics and days, sorted by metric in the collation given and then by day |
| CounterEnergy.DescribeRestarts | packages/db/src/counter-energy.ts:144-161 | Every step on which a counter went backwards, sorted by metric and then by time |
| CounterEnergy.EnergyIsConserved | packages/db/src/counter-energy.ts:53-67 | For any series, daily energies add up to the net change plus what the restarts discarded; daily resets are the restarts |
| CounterEnergy.ReportsAreSorted | packages/db/src/counter-energy.ts:104-160 | Both reports are ordered permutations of their tables |
| CounterEnergy.ReportsAreOrderFree | packages/db/src/counter-energy.ts:71-161 | With distinct timestamps and a collation that tells the metrics apart, both reports are the same row for row for every permutation of the readings |
| HeadlineError.ClosedForm | scripts/fixture-1-2-0.ts:299-309 | Energy of every day of the restarting counter, the one reset, and the naive figure of the restart day |
| HeadlineError.SeededRestartIsARun | scripts/fixture-1-2-0.ts:212-236 | The restarting counter of the fixture is such a counter for every span of two days or more |
| HeadlineError.MinuteStep | packages/db/src/counter-energy.ts:60-67 | Every minute adds the same energy, and the restart alone counts as a reset |
| ValueModel.SqlMeansTheSame | scripts/fixture-1-2-0.ts:316-355 | At every minute the SQL expression evaluates to the value of the arithmetic model, for any sine and pi |
| ValueModel.AgreementIsExact | scripts/fixture-1-2-0.ts:264-355 | The two agree everywhere if and only if a PV shape has no negative peak |
| ValueModel.AssignedShapesAgree | scripts/fixture-1-2-0.ts:212-258 | Every shape that a profile is given agrees |
| ValueModel.WrapIsCase | scripts/fixture-1-2-0.ts:287-292 | The CASE is the wrap of the hour around midnight |
| AutomationState.MigrateAutomationState | packages/db/src/automation-state.ts:117-144 | The loop writes each entry under its new key, reports the orphans and whether anything moved |
| AutomationState.NothingIsLost | packages/db/src/automation-state.ts:126-144 | Every snapshot survives once under a key of its own; a device's own entry is never overwritten; orphans stay |
| AutomationState.LosslessExactly | packages/db/src/automation-state.ts:151-164 | No blob loses an entry if and only if no two old namespaces lead to one device |
| AutomationState.EachDeviceOnce | packages/db/src/automation-state.ts:74-81 | A plant that binds each device once is of that kind |
| AutomationState.OrderIsIrrelevant | packages/db/src/automation-state.ts:130-144 | The order in which the entries are listed makes no difference |
| AutomationState.MigratingIsIdempotent | packages/db/src/automation-state.ts:104-116 | A second pass moves nothing and reports the same orphans |
| AutomationState.AmbiguousIsLeft | packages/db/src/automation-state.ts:98-102 | An entry whose namespace no binding names, or two bindings do, keeps its key and snapshot and is reported |
| AutomationState.SoleNamedAdopts | packages/db/src/automation-state.ts:146-164 | An entry whose namespace exactly one binding names moves under that device, with its snapshot; if the device has one of its own, it stays and is reported |
| AutomationState.DeviceEntryStays | packages/db/src/automation-state.ts:151-157 | An entry under a bound device keeps its key and snapshot and is no orphan |
| AutomationState.NoNamespaceIsLeft | packages/db/src/automation-state.ts:151-157 | A key without a namespace keeps its snapshot and is reported |
| AutomationState.OrphansInOrder | packages/db/src/automation-state.ts:126-144 | Orphans are reported in the order of the entries |
| AutomationState.ChangedExactly | packages/db/src/automation-state.ts:130-144 | The result says it changed something if and only if the blob is a different one |
| RestoreParity.CompareRollup | scripts/db-parity.ts:93-120 | No problem if and only if keys are unique on both sides, the key sets are equal and paired values match |
| RestoreParity.DifferDecidesParity | scripts/db-parity.ts:98-119 | Uniqueness is forced by the deletions and the row count, not assumed |
| RestoreParity.RollupKeyIsInjective | scripts/db-parity.ts:84-86 | The printed key identifies bucket, device and metric |
| RestoreParity.LastRowWins | scripts/db-parity.ts:93-120 | Of rows that share a key the last one is compared |
| PlantBattery.MergingComposes | packages/db/src/batteries.ts:73-94 | Deriving over two groups equals deriving over their derived records, in all fields, exactly when there is capacity to weight by, equal group sizes, or equal mean floors |
| PlantBattery.ReserveIsConserved | packages/db/src/batteries.ts:76-89 | The plant reserves the energy its packs reserve |
| PlantBattery.FloorIsBetween | packages/db/src/batteries.ts:86-89 | The plant floor lies between the lowest and the highest floor of its packs |
| PlantBattery.OnePackIsItself | packages/db/src/batteries.ts:73-94 | Deriving over a single battery returns it unchanged |
| PlantBattery.UnboundedExactly | packages/db/src/batteries.ts:76-89 | The plant's charge limit is unbounded if and only if some pack's is |
| PlantBattery.VoltageIsFirst | packages/db/src/batteries.ts:89-94 | The voltage is the first one that a pack states, and none if none does |
| PlantBattery.FloorsAreWeighted | packages/db/src/batteries.ts:86-89 | A large pack at 5 and a small one at 50 give a floor of 80/7, not 27.5 |

## Left out

- ImportGuarantees.ImportIsAtMostOnce: counts `metrics_raw` only. The configuration log is inserted before the first replay commit and is not part of the overlap count, so a bucket-only archive killed in between inserts those rows again; the log insert is not a statement of this model.
- ImportGuarantees.FinishedImportIsFinal: unforced attempts at one archive that holds at least one reading; `--force`, a changed device map, and an archive without readings (which writes no marker) are outside it.
- ArchiveRoundTrip.HistoryComesBackExactly: printing and reading JSON is the identity, configuration polls travel in the log, outside it, and the target has never seen the archive.
- ImportRun.Importer.ImportArchive: inserting the configuration log, indexing the staging tables, disarming compression and applying the configuration document are no statements of the run. The refresh always runs: a request that turns it off is not modelled. Unknown device slugs refuse, which the preflight models; metric ids are not modelled, and the content hash is a name.
- ImportRun.Importer.LoadReadings: the readings are decoded and renamed; the lines they come from, and the lines that stop a load, are in `ArchiveLoad.Loader.LoadReadings`, which fills the same tables.
- BackfillSafety.BackfillIsCrashEquivalent: the legacy relations, the source ids and their order, and the caller's input are the same on every attempt, and nobody else writes. Ids whose first buckets coincide may be ordered either way by the database; the model takes one order.
- BackfillGuarantees.HourlyBeforeDaily: for a written span fixed by the rows of the migration; a span that grows between attempts because live readings arrive is not modelled, and windows are recorded by their start only.
- BackfillOrder.ConfigHistoryIsKept: nobody logs while the backfill runs; what the server has logged before lies after every poll of the legacy relations. The carried window is logged first, so its first value may repeat the last replayed one. Two rows of a metric logged at one instant are taken in insertion order.
- BackfillOrder.OrderIsExact: for chunks of at least two milliseconds. Of two chunks that share their one instant, which loses a poll depends on what was logged before them.
- BackfillCoverage.EveryBucketIsMaterialized: for a written span longer than an instant; a refresh is recorded as an event with the rows it saw, and the aggregate's own arithmetic is not modelled.
- DropGate.MetricDaysAreComparedOnce: the rows come in the order in which their metric-days first occur; the database sorts them, which changes the order of the report only.
- MigrationGate.CleanMigrationVerifiedExactly: with a loss on one side and a value of its own on the other, a migration is judged by counts and means, as `MigrationGate.VerifiedAsForeseen` says.
- CounterEnergy.PerDayEnergy: the locale's collation is any ranking of the metrics. Readings at equal timestamps keep their order, as the sort is stable.
- RefreshWindows.RefreshWindows: the chunk size is a whole number of milliseconds.
- RestoreParity.CompareRollup: one aggregate; the unclaimed keys are reported in no particular order, and the table counts, digests and stream counts beside it are comparisons of single values.
- AutomationState.MigrateAutomationState: the stored blob is a map from text to snapshot; a key named `__proto__`, which a JavaScript object treats specially, is not modelled.
- ValueModel.AssignedShapesAgree: a unit that happens to name a property every JavaScript object inherits is not modelled, nor is upper and lower case outside ASCII.
- Ustar.HeaderRoundTrip: names are bytes. Text encoding is not modelled; around a number only ASCII white space is trimmed.
- LineStream.SpoolThenRead: compression is the identity and decoding is by character, so a chunk never splits one.
- Reading and writing JSON lines and the manifest, hashing, gzip, streams, temporary files and clean-up.
- SQL text and drivers: a statement is its effect on the tables, a transaction is one step. A metric key missing from the vocabulary stops a replay before it writes; the model assumes the keys are registered.
- Progress callbacks, log lines, elapsed times, the totals folded over several replays, and retention and shortfall warnings.
- Integer widths and floating point: counts and times are unbounded integers, values are exact reals.
- Native configuration-log export, configuration documents, plant and connection stores, settings schemas, authentication, the appliance commands, and everything outside history movement.
