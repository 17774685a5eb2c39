# JaCoCo report merger

A Dafny model of `JaCoCoReportMerger` from the SonarQube Java plugin. This class merges
several JaCoCo execution-data reports into one overall report. The model covers the two
pieces of logic the class itself contains:

- **The format-version check** (`loadSourceFiles`). The class walks the input reports in
  order and skips paths that are not files. The first report read fixes the expected
  binary format ("current" or "previous"). Any later report in the other format aborts
  the merge. When no report is read, the current format is used. The model has a
  specification function `Scan`/`LoadFormat` over the list of reports. It also has a
  method `LoadSourceFiles` that runs the loop with an `Option<bool>` flag, and a
  reference definition (`ReadFormats`, `Agree`) in terms of the formats of the reports
  that were read. Lemmas connect the three.
- **The output** (`mergeReports`). The format check runs before the output file is
  opened. The writer (encoder) of the format found is then chosen. For each accumulated
  session entry, in the order given, the merge writes a session-info record with the
  entry's name and zero start and dump timestamps, followed by that session's execution
  data. `RecordWriter` is the output visitor, a class whose record sequence grows as it
  is written to. `MergeReports` is the whole merge, and `Plan` is the record sequence it
  produces. `Regroup` reads such a sequence back into session entries; the round trip
  `RegroupPlan` pins down the layout exactly.

Each input report is reduced to two booleans: whether its path is a file, and the
format the report reader detected in it. Class data is an opaque type parameter.

## Model

| member | source | states |
|---|---|---|
| `JaCoCoReportMerger.LoadSourceFiles` | java-jacoco/src/main/java/org/sonar/plugins/jacoco/JaCoCoReportMerger.java:72-86 | the loop with its nullable flag, including the early exit on a mismatch, returns the result of the format check over all reports |
| `JaCoCoReportMerger.MismatchIsFinal` | java-jacoco/src/main/java/org/sonar/plugins/jacoco/JaCoCoReportMerger.java:80-81 | once a mismatch is found, the check fails whatever reports follow, so stopping at the first mismatch is sound |
| `JaCoCoReportMerger.ExpectedNeverChanges` | java-jacoco/src/main/java/org/sonar/plugins/jacoco/JaCoCoReportMerger.java:78-82 | once the flag holds a format, it keeps that format through all later reports, unless the check fails |
| `JaCoCoReportMerger.ScanTracksReadFormats` | java-jacoco/src/main/java/org/sonar/plugins/jacoco/JaCoCoReportMerger.java:73-84 | after any prefix of the reports, the flag is absent iff no file was read, holds the common format iff all formats read agree, and the check has failed iff two formats read differ |
| `JaCoCoReportMerger.MismatchIffFormatsDiffer` | java-jacoco/src/main/java/org/sonar/plugins/jacoco/JaCoCoReportMerger.java:74-82 | the check fails if and only if two reports that are files have different formats |
| `JaCoCoReportMerger.OkIffAllFormatsAre` | java-jacoco/src/main/java/org/sonar/plugins/jacoco/JaCoCoReportMerger.java:73-85 | the check returns format v if and only if every report that is a file has format v, and at least one report is a file whenever v is the previous format |
| `JaCoCoReportMerger.NonFileIsSkipped` | java-jacoco/src/main/java/org/sonar/plugins/jacoco/JaCoCoReportMerger.java:74-75 | inserting a path that is not a file anywhere in the list leaves the check's result unchanged |
| `JaCoCoReportMerger.FirstReadFixesFormat` | java-jacoco/src/main/java/org/sonar/plugins/jacoco/JaCoCoReportMerger.java:78-79 | the first report that is a file sets the flag to its own format; the check then returns that format or fails |
| `JaCoCoReportMerger.NoFileDefaultsToCurrent` | java-jacoco/src/main/java/org/sonar/plugins/jacoco/JaCoCoReportMerger.java:73-85 | when no report is a file (an empty list included), the check succeeds with the current format |
| `JaCoCoReportMerger.MergeReports` | java-jacoco/src/main/java/org/sonar/plugins/jacoco/JaCoCoReportMerger.java:51-70 | the merge fails with a format mismatch, and writes nothing, exactly when the check fails; otherwise it uses the current-format writer exactly when the check returned the current format, and it writes exactly the planned records for the session entries |
| `JaCoCoReportMerger.RecordWriter.constructor` | java-jacoco/src/main/java/org/sonar/plugins/jacoco/JaCoCoReportMerger.java:57-61 | a new writer has the chosen encoder and has written nothing |
| `JaCoCoReportMerger.RecordWriter.VisitSessionInfo` | java-jacoco/src/main/java/org/sonar/plugins/jacoco/JaCoCoReportMerger.java:63-64 | visiting a session info appends exactly that session-info record to the stream |
| `JaCoCoReportMerger.RecordWriter.VisitClassExecution` | java-jacoco/src/main/java/org/sonar/plugins/jacoco/JaCoCoReportMerger.java:65 | visiting one class's execution data appends exactly that record to the stream |
| `JaCoCoReportMerger.AcceptStore` | java-jacoco/src/main/java/org/sonar/plugins/jacoco/JaCoCoReportMerger.java:65 | a session's store hands the writer one execution-data record per class, in order, and nothing else |
| `JaCoCoReportMerger.PlanSnoc` | java-jacoco/src/main/java/org/sonar/plugins/jacoco/JaCoCoReportMerger.java:62-66 | writing one more session entry appends its session-info record (zero timestamps) followed by its execution data |
| `JaCoCoReportMerger.RegroupPlan` | java-jacoco/src/main/java/org/sonar/plugins/jacoco/JaCoCoReportMerger.java:62-66 | reading the output back gives the session entries with their names, data and order: each session-info record is immediately followed by exactly its own entry's execution data |
| `JaCoCoReportMerger.PlanSessionInfos` | java-jacoco/src/main/java/org/sonar/plugins/jacoco/JaCoCoReportMerger.java:62-64 | the output holds exactly one session-info record per session entry, in order, each with the entry's name and start and dump timestamps of 0 |

## Left out

- File system: whether a path is a file is an input bit of each report. Opening, buffering, writing and closing the output file are not modelled. An open is represented by creating the `RecordWriter`.
- I/O failures: wrapping an `IOException` into an `AnalysisException` that names the output path (lines 55 and 67-68) is not modelled. `MergeResult` has no I/O error case.
- `JacocoReportReader` is not part of this model. Its binary decoding, its format detection and its decode errors are left out; the detected format is an opaque boolean per report.
- `ExecutionDataVisitor` is not part of this model, and neither is JaCoCo's `ExecutionDataStore`. The accumulation of sessions while reading and the per-class OR-merge of probes are left out. `MergeReports` takes the accumulated session entries as an input, in the session map's iteration order, and does not relate them to the reports.
- `AcceptStore`: the order in which a store visits its classes is taken as given (the order of the entry's sequence), because the store belongs to the JaCoCo library.
- JaCoCo's two `ExecutionDataWriter` classes and the binary wire format are left out. Records are abstract values tagged with the chosen encoder.
- Timestamps are unbounded integers rather than Java `long`. Only the constant 0 is ever written.
