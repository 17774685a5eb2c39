/**
 * A model of the merge of JaCoCo execution-data reports (the SonarQube Java plugin's
 * JaCoCoReportMerger): the check that every input report uses one and the same binary
 * format version, and the sequence of records the merge writes with the encoder of that
 * version.
 *
 * Decoding a report, detecting its format and accumulating its sessions are done by
 * library code that this model does not contain: each input report is reduced to two
 * booleans, and the accumulated sessions are an input of the merge.
 */
module JaCoCoReportMerger {

  datatype Option<+T> = None | Some(value: T)

  // ---------------------------------------------------------------------------
  // The format-version consistency check (loadSourceFiles)
  // ---------------------------------------------------------------------------

  /** One input report as the merge sees it: whether its path names an existing regular
      file, and, for a file, whether the report reader found the current binary format. */
  datatype Report = Report(isFile: bool, formatIsCurrent: bool)

  /** What the check hands back: the format of every report read, or the refusal to mix
      two formats. */
  datatype FormatResult = Ok(isCurrent: bool) | MismatchError

  /** The check's state after some prefix of the reports: the nullable flag (no report read
      yet, or the format of the first report read), or the mismatch that aborted it. */
  datatype ScanState = Reading(expected: Option<bool>) | Mismatched

  /** One turn of the loop: a path that is not a file changes nothing, the first report
      read fixes the expected format, a later one must agree with it. */
  function Step(state: ScanState, report: Report): ScanState
  {
    match state
    case Mismatched => Mismatched
    case Reading(expected) =>
      if !report.isFile then state
      else match expected
        case None => Reading(Some(report.formatIsCurrent))
        case Some(v) => if v == report.formatIsCurrent then state else Mismatched
  }

  /** The state after running the loop over all of `reports`, in order. */
  function Scan(reports: seq<Report>): ScanState
    decreases |reports|
  {
    if reports == [] then Reading(None)
    else Step(Scan(reports[..|reports| - 1]), reports[|reports| - 1])
  }

  /** Apache Commons' isNotFalse on a nullable Boolean: absent or true gives true. */
  function IsNotFalse(flag: Option<bool>): bool
  {
    flag != Some(false)
  }

  /** The result of the check over all of `reports`. */
  function LoadFormat(reports: seq<Report>): FormatResult
  {
    match Scan(reports)
    case Mismatched => MismatchError
    case Reading(expected) => Ok(IsNotFalse(expected))
  }

  /** The check as the merge runs it: a loop over the reports that updates a nullable flag
      and stops at the first report whose format differs from the expected one. */
  method LoadSourceFiles(reports: seq<Report>) returns (res: FormatResult)
    ensures res == LoadFormat(reports)
  {
    var expected: Option<bool> := None;
    var i := 0;
    while i < |reports|
      invariant 0 <= i <= |reports|
      invariant Scan(reports[..i]) == Reading(expected)
    {
      var report := reports[i];
      assert reports[..i + 1][..i] == reports[..i];
      if report.isFile {
        var reportFormatIsCurrent := report.formatIsCurrent;
        if expected == None {
          expected := Some(reportFormatIsCurrent);
        } else if expected.value != reportFormatIsCurrent {
          MismatchIsFinal(reports, i + 1);
          return MismatchError;
        }
      }
      i := i + 1;
    }
    assert reports[..i] == reports;
    return Ok(IsNotFalse(expected));
  }

  /** Once the check has failed, no later report can make it succeed. */
  lemma {:induction false} MismatchIsFinal(reports: seq<Report>, k: nat)
    requires k <= |reports|
    requires Scan(reports[..k]) == Mismatched
    ensures Scan(reports) == Mismatched
    decreases |reports| - k
  {
    if k < |reports| {
      assert reports[..k + 1][..k] == reports[..k];
      MismatchIsFinal(reports, k + 1);
    } else {
      assert reports[..k] == reports;
    }
  }

  /** Once a format is expected, later reports either agree with it or abort the check:
      the expected format never changes. */
  lemma {:induction false} ExpectedNeverChanges(reports: seq<Report>, k: nat, v: bool)
    requires k <= |reports|
    requires Scan(reports[..k]) == Reading(Some(v))
    ensures Scan(reports) == Reading(Some(v)) || Scan(reports) == Mismatched
    decreases |reports| - k
  {
    if k == |reports| {
      assert reports[..k] == reports;
    } else {
      assert reports[..k + 1][..k] == reports[..k];
      if Scan(reports[..k + 1]) == Mismatched {
        MismatchIsFinal(reports, k + 1);
      } else {
        ExpectedNeverChanges(reports, k + 1, v);
      }
    }
  }

  // A reference definition of the check, in terms of the formats of the reports read.

  /** The formats of the reports that are files, in order. */
  function ReadFormats(reports: seq<Report>): seq<bool>
    decreases |reports|
  {
    if reports == [] then []
    else
      var last := reports[|reports| - 1];
      ReadFormats(reports[..|reports| - 1]) + (if last.isFile then [last.formatIsCurrent] else [])
  }

  /** No two of the formats differ. */
  ghost predicate Agree(formats: seq<bool>)
  {
    forall i, j :: 0 <= i < |formats| && 0 <= j < |formats| ==> formats[i] == formats[j]
  }

  /** The state the check should be in after reading `formats`. */
  ghost function ExpectedState(formats: seq<bool>): ScanState
  {
    if !Agree(formats) then Mismatched
    else if formats == [] then Reading(None)
    else Reading(Some(formats[0]))
  }

  /** The loop's state is determined by the formats read so far: nothing read, the common
      format of all of them, or a mismatch exactly when two of them differ. */
  lemma {:induction false} ScanTracksReadFormats(reports: seq<Report>)
    ensures Scan(reports) == ExpectedState(ReadFormats(reports))
    decreases |reports|
  {
    if reports != [] {
      var prefix, last := reports[..|reports| - 1], reports[|reports| - 1];
      ScanTracksReadFormats(prefix);
      var before, after := ReadFormats(prefix), ReadFormats(reports);
      if last.isFile {
        var f := last.formatIsCurrent;
        assert after == before + [f];
        if !Agree(before) {
          var i, j :| 0 <= i < |before| && 0 <= j < |before| && before[i] != before[j];
          assert after[i] != after[j];
        } else if before != [] && before[0] != f {
          assert after[0] != after[|after| - 1];
        } else {
          assert forall k :: 0 <= k < |after| ==> after[k] == f;
        }
      } else {
        assert after == before;
      }
    }
  }

  /** Reading two lists of reports one after the other reads the formats of both. */
  lemma {:induction false} ReadFormatsAppend(a: seq<Report>, b: seq<Report>)
    ensures ReadFormats(a + b) == ReadFormats(a) + ReadFormats(b)
    decreases |b|
  {
    if b == [] {
      assert a + b == a;
    } else {
      var b' := b[..|b| - 1];
      assert (a + b)[..|a + b| - 1] == a + b';
      ReadFormatsAppend(a, b');
    }
  }

  /** The format of every report that is a file is among the formats read. */
  lemma {:induction false} ReadFormatOfFile(reports: seq<Report>, i: nat) returns (k: nat)
    requires i < |reports| && reports[i].isFile
    ensures k < |ReadFormats(reports)| && ReadFormats(reports)[k] == reports[i].formatIsCurrent
    decreases |reports|
  {
    var prefix := reports[..|reports| - 1];
    if i == |reports| - 1 {
      k := |ReadFormats(prefix)|;
    } else {
      k := ReadFormatOfFile(prefix, i);
    }
  }

  /** Every format read is the format of a report that is a file. */
  lemma {:induction false} ReadFormatSource(reports: seq<Report>, k: nat) returns (i: nat)
    requires k < |ReadFormats(reports)|
    ensures i < |reports| && reports[i].isFile
    ensures reports[i].formatIsCurrent == ReadFormats(reports)[k]
    decreases |reports|
  {
    var prefix := reports[..|reports| - 1];
    if k < |ReadFormats(prefix)| {
      i := ReadFormatSource(prefix, k);
    } else {
      i := |reports| - 1;
    }
  }

  /** The check fails exactly when two reports that are files have different formats. */
  lemma MismatchIffFormatsDiffer(reports: seq<Report>)
    ensures LoadFormat(reports) == MismatchError <==>
      exists i, j :: 0 <= i < |reports| && 0 <= j < |reports| &&
        reports[i].isFile && reports[j].isFile &&
        reports[i].formatIsCurrent != reports[j].formatIsCurrent
  {
    ScanTracksReadFormats(reports);
    var formats := ReadFormats(reports);
    if LoadFormat(reports) == MismatchError {
      var k, l :| 0 <= k < |formats| && 0 <= l < |formats| && formats[k] != formats[l];
      var i := ReadFormatSource(reports, k);
      var j := ReadFormatSource(reports, l);
      assert reports[i].formatIsCurrent != reports[j].formatIsCurrent;
    } else {
      forall i, j | 0 <= i < |reports| && 0 <= j < |reports| && reports[i].isFile && reports[j].isFile
        ensures reports[i].formatIsCurrent == reports[j].formatIsCurrent
      {
        var k := ReadFormatOfFile(reports, i);
        var l := ReadFormatOfFile(reports, j);
      }
    }
  }

  /** The check returns `v` exactly when every report that is a file has format `v`, and,
      when `v` is the previous format, at least one report is a file. */
  lemma OkIffAllFormatsAre(reports: seq<Report>, v: bool)
    ensures LoadFormat(reports) == Ok(v) <==>
      (forall i :: 0 <= i < |reports| && reports[i].isFile ==> reports[i].formatIsCurrent == v) &&
      (v || exists i :: 0 <= i < |reports| && reports[i].isFile)
  {
    ScanTracksReadFormats(reports);
    var formats := ReadFormats(reports);
    if LoadFormat(reports) == Ok(v) {
      forall i | 0 <= i < |reports| && reports[i].isFile
        ensures reports[i].formatIsCurrent == v
      {
        var k := ReadFormatOfFile(reports, i);
      }
      if !v {
        var i := ReadFormatSource(reports, 0);
      }
    } else if forall i :: 0 <= i < |reports| && reports[i].isFile ==> reports[i].formatIsCurrent == v {
      forall k, l | 0 <= k < |formats| && 0 <= l < |formats|
        ensures formats[k] == formats[l]
      {
        var i := ReadFormatSource(reports, k);
        var j := ReadFormatSource(reports, l);
      }
      if formats != [] {
        var i := ReadFormatSource(reports, 0);
      }
      forall i | 0 <= i < |reports| && reports[i].isFile
        ensures false
      {
        var k := ReadFormatOfFile(reports, i);
      }
    }
  }

  /** A path that is not a file, wherever it stands in the list, does not affect the check. */
  lemma NonFileIsSkipped(before: seq<Report>, report: Report, after: seq<Report>)
    requires !report.isFile
    ensures LoadFormat(before + [report] + after) == LoadFormat(before + after)
  {
    ReadFormatsAppend(before, [report]);
    ReadFormatsAppend(before + [report], after);
    ReadFormatsAppend(before, after);
    assert ReadFormats([report]) == [] by {
      assert [report][..0] == [];
    }
    assert ReadFormats(before + [report] + after) == ReadFormats(before + after);
    ScanTracksReadFormats(before + [report] + after);
    ScanTracksReadFormats(before + after);
  }

  /** The first report that is a file sets the expected format to its own, and the check
      then either returns that format or fails. */
  lemma FirstReadFixesFormat(reports: seq<Report>, k: nat)
    requires k < |reports| && reports[k].isFile
    requires forall i :: 0 <= i < k ==> !reports[i].isFile
    ensures Scan(reports[..k + 1]) == Reading(Some(reports[k].formatIsCurrent))
    ensures LoadFormat(reports) == Ok(reports[k].formatIsCurrent) || LoadFormat(reports) == MismatchError
  {
    var prefix := reports[..k];
    ScanTracksReadFormats(prefix);
    assert forall i :: 0 <= i < |prefix| ==> !prefix[i].isFile;
    if ReadFormats(prefix) != [] {
      var i := ReadFormatSource(prefix, 0);
      assert false;
    }
    assert reports[..k + 1][..k] == prefix;
    ExpectedNeverChanges(reports, k + 1, reports[k].formatIsCurrent);
  }

  /** With no report that is a file (an empty list included) the check succeeds and
      chooses the current format. */
  lemma NoFileDefaultsToCurrent(reports: seq<Report>)
    requires forall i :: 0 <= i < |reports| ==> !reports[i].isFile
    ensures LoadFormat(reports) == Ok(true)
  {
    OkIffAllFormatsAre(reports, true);
  }

  // ---------------------------------------------------------------------------
  // The merged output (mergeReports)
  // ---------------------------------------------------------------------------

  /** The two writers of the binary format: JaCoCo's current ExecutionDataWriter and the
      one of the previous format. */
  datatype Encoder = CurrentFormatWriter | PreviousFormatWriter

  /** A record of the output stream. The class data of an execution-data record is opaque. */
  datatype Record<D> = SessionInfo(id: string, start: int, dump: int) | ExecutionData(data: D)

  /** One entry of the accumulated session map: a session name and the class data of that
      session's store, in the order in which the store visits it. */
  datatype SessionEntry<D> = SessionEntry(name: string, store: seq<D>)

  /** What a merge ends with: the refusal to mix formats, raised before the output is
      opened, or the encoder chosen and the records it was given. */
  datatype MergeResult<D> = FormatMismatch | Written(encoder: Encoder, records: seq<Record<D>>)

  function EncoderFor(isCurrent: bool): Encoder
  {
    if isCurrent then CurrentFormatWriter else PreviousFormatWriter
  }

  /** The execution-data records of one store. */
  function ClassRecords<D>(store: seq<D>): seq<Record<D>>
  {
    seq(|store|, k requires 0 <= k < |store| => ExecutionData(store[k]))
  }

  /** The records written for the session entries, in order: for each entry a session-info
      record with the entry's name and zero timestamps, then the entry's execution data. */
  function Plan<D>(sessions: seq<SessionEntry<D>>): seq<Record<D>>
    decreases |sessions|
  {
    if sessions == [] then []
    else [SessionInfo(sessions[0].name, 0, 0)] + ClassRecords(sessions[0].store) + Plan(sessions[1..])
  }

  /** The output visitor: an encoder that appends each record it is given to the stream. */
  class RecordWriter<D> {
    const encoder: Encoder
    var records: seq<Record<D>>

    constructor (encoder: Encoder)
      ensures this.encoder == encoder && records == []
    {
      this.encoder := encoder;
      records := [];
    }

    method VisitSessionInfo(id: string, start: int, dump: int)
      modifies this
      ensures records == old(records) + [SessionInfo(id, start, dump)]
    {
      records := records + [SessionInfo(id, start, dump)];
    }

    method VisitClassExecution(data: D)
      modifies this
      ensures records == old(records) + [ExecutionData(data)]
    {
      records := records + [ExecutionData(data)];
    }
  }

  /** A session's store handing each of its classes to the writer, in order. */
  method AcceptStore<D>(store: seq<D>, writer: RecordWriter<D>)
    modifies writer
    ensures writer.records == old(writer.records) + ClassRecords(store)
  {
    var k := 0;
    while k < |store|
      invariant 0 <= k <= |store|
      invariant writer.records == old(writer.records) + ClassRecords(store[..k])
    {
      writer.VisitClassExecution(store[k]);
      assert ClassRecords(store[..k + 1]) == ClassRecords(store[..k]) + [ExecutionData(store[k])];
      k := k + 1;
    }
    assert store[..k] == store;
  }

  /** Writing one more session entry appends its session-info record and its data. */
  lemma {:induction false} PlanSnoc<D>(sessions: seq<SessionEntry<D>>, entry: SessionEntry<D>)
    ensures Plan(sessions + [entry]) ==
      Plan(sessions) + [SessionInfo(entry.name, 0, 0)] + ClassRecords(entry.store)
    decreases |sessions|
  {
    if sessions == [] {
      assert [entry][1..] == [];
    } else {
      assert (sessions + [entry])[1..] == sessions[1..] + [entry];
      PlanSnoc(sessions[1..], entry);
    }
  }

  /** The merge: the format check over all reports first, then, only if it succeeded, the
      output is opened with the encoder of the common format and every session entry is
      written, in the order given. */
  method MergeReports<D>(reports: seq<Report>, sessions: seq<SessionEntry<D>>) returns (res: MergeResult<D>)
    ensures res == FormatMismatch <==> LoadFormat(reports) == MismatchError
    ensures res.Written? ==> (res.encoder == CurrentFormatWriter <==> LoadFormat(reports) == Ok(true))
    ensures res.Written? ==> res.records == Plan(sessions)
  {
    var format := LoadSourceFiles(reports);
    if format.MismatchError? {
      return FormatMismatch;
    }
    var writer := new RecordWriter(EncoderFor(format.isCurrent));
    var i := 0;
    while i < |sessions|
      invariant 0 <= i <= |sessions|
      invariant writer.encoder == EncoderFor(format.isCurrent)
      invariant writer.records == Plan(sessions[..i])
    {
      var entry := sessions[i];
      writer.VisitSessionInfo(entry.name, 0, 0);
      AcceptStore(entry.store, writer);
      PlanSnoc(sessions[..i], entry);
      assert sessions[..i + 1] == sessions[..i] + [entry];
      i := i + 1;
    }
    assert sessions[..i] == sessions;
    return Written(writer.encoder, writer.records);
  }

  // Reading the merged output back: the inverse of Plan.

  /** The length of the run of execution-data records that `rs` starts with. */
  function DataRun<D>(rs: seq<Record<D>>): (n: nat)
    ensures n <= |rs|
    ensures forall k :: 0 <= k < n ==> rs[k].ExecutionData?
    ensures n < |rs| ==> rs[n].SessionInfo?
    decreases |rs|
  {
    if rs == [] || rs[0].SessionInfo? then 0 else 1 + DataRun(rs[1..])
  }

  /** The class data of a run of execution-data records. */
  function DataOf<D>(rs: seq<Record<D>>): seq<D>
    requires forall k :: 0 <= k < |rs| ==> rs[k].ExecutionData?
  {
    seq(|rs|, k requires 0 <= k < |rs| => rs[k].data)
  }

  /** Groups a record stream into session entries: each session-info record opens an entry
      that owns the execution-data records up to the next one. A stream that begins with
      execution data belongs to no session and is rejected. */
  function Regroup<D>(rs: seq<Record<D>>): Option<seq<SessionEntry<D>>>
    decreases |rs|
  {
    if rs == [] then Some([])
    else match rs[0]
      case ExecutionData(_) => None
      case SessionInfo(id, _, _) =>
        var n := DataRun(rs[1..]);
        match Regroup(rs[1 + n..])
        case None => None
        case Some(rest) => Some([SessionEntry(id, DataOf(rs[1..][..n]))] + rest)
  }

  /** The data records of a store, followed by a stream that starts with a session-info
      record or is empty, form a run exactly as long as the store. */
  lemma DataRunOfStore<D>(store: seq<D>, tail: seq<Record<D>>)
    requires tail == [] || tail[0].SessionInfo?
    ensures DataRun(ClassRecords(store) + tail) == |store|
  {
    var rs := ClassRecords(store) + tail;
    assert forall k :: 0 <= k < |store| ==> rs[k].ExecutionData?;
    assert |store| < |rs| ==> rs[|store|] == tail[0];
  }

  /** One entry of the output regroups into that entry, ahead of what the rest regroups to. */
  lemma RegroupEntry<D>(entry: SessionEntry<D>, tail: seq<Record<D>>)
    requires tail == [] || tail[0].SessionInfo?
    ensures Regroup([SessionInfo(entry.name, 0, 0)] + ClassRecords(entry.store) + tail) ==
      match Regroup(tail)
      case None => None
      case Some(rest) => Some([entry] + rest)
  {
    var data := ClassRecords(entry.store);
    var rs := [SessionInfo(entry.name, 0, 0)] + data + tail;
    assert rs[1..] == data + tail;
    DataRunOfStore(entry.store, tail);
    var n := |entry.store|;
    assert rs[1..][..n] == data;
    assert rs[1 + n..] == tail;
    assert DataOf(data) == entry.store;
  }

  /** Regrouping the merged output gives back the session entries, names, data and order:
      every entry is written as one session-info record immediately followed by exactly
      its own execution data. */
  lemma {:induction false} RegroupPlan<D>(sessions: seq<SessionEntry<D>>)
    ensures Regroup(Plan(sessions)) == Some(sessions)
    decreases |sessions|
  {
    if sessions != [] {
      var head, rest := sessions[0], sessions[1..];
      assert rest != [] ==> Plan(rest)[0] == SessionInfo(rest[0].name, 0, 0);
      RegroupEntry(head, Plan(rest));
      RegroupPlan(rest);
      assert sessions == [head] + rest;
    }
  }

  /** The session-info records of a stream, in order. */
  function SessionInfos<D>(rs: seq<Record<D>>): seq<Record<D>>
    decreases |rs|
  {
    if rs == [] then []
    else (if rs[0].SessionInfo? then [rs[0]] else []) + SessionInfos(rs[1..])
  }

  lemma {:induction false} SessionInfosAppend<D>(a: seq<Record<D>>, b: seq<Record<D>>)
    ensures SessionInfos(a + b) == SessionInfos(a) + SessionInfos(b)
    decreases |a|
  {
    if a != [] {
      assert (a + b)[1..] == a[1..] + b;
      SessionInfosAppend(a[1..], b);
    } else {
      assert a + b == b;
    }
  }

  lemma {:induction false} NoSessionInfoInData<D>(store: seq<D>)
    ensures SessionInfos(ClassRecords(store)) == []
    decreases |store|
  {
    if store != [] {
      assert ClassRecords(store)[1..] == ClassRecords(store[1..]);
      NoSessionInfoInData(store[1..]);
    }
  }

  /** The merged output holds exactly one session-info record per session entry, in the
      entries' order, each with the entry's name and start and dump timestamps of zero. */
  lemma {:induction false} PlanSessionInfos<D>(sessions: seq<SessionEntry<D>>)
    ensures |SessionInfos(Plan(sessions))| == |sessions|
    ensures forall i :: 0 <= i < |sessions| ==>
      SessionInfos(Plan(sessions))[i] == SessionInfo(sessions[i].name, 0, 0)
    decreases |sessions|
  {
    if sessions != [] {
      var head, rest := sessions[0], sessions[1..];
      var info := [SessionInfo(head.name, 0, 0)];
      SessionInfosAppend(info + ClassRecords(head.store), Plan(rest));
      SessionInfosAppend(info, ClassRecords(head.store));
      NoSessionInfoInData(head.store);
      assert SessionInfos(info) == info by {
        assert info[1..] == [];
      }
      PlanSessionInfos(rest);
    }
  }
}
