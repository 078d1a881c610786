/**
 * The blob trigger: the type gate, one read and decode inside a
 * catch-all, then the three sinks in a fixed order.
 */
module Pipeline {
  import opened Wrappers
  import opened TypeGate
  import opened Metadata
  import opened Text
  import opened Report
  import opened Sinks

  /** The trigger's input: the object name and its content. */
  datatype Blob = Blob(name: string, content: seq<byte>)

  /** The abstract outcome of every sink's external calls. */
  datatype Environment = Environment(sql: SqlEnvironment, queueReachable: bool, storageReachable: bool)

  /** What one run observably does, in order. */
  datatype Step = ReadContent | DecodeImage(succeeded: bool) | Attempt(outcome: SinkOutcome)

  datatype Verdict = SkippedNotImage | DecodeFailed | Processed(metadata: MetadataRecord)

  datatype Run = Run(verdict: Verdict, steps: seq<Step>)

  /** `process_metadata`: every sink is called, in order, whatever the earlier ones did. */
  method ProcessMetadata(m: MetadataRecord, filename: string, env: Environment, amb: Ambient, fixed2: real -> string)
    returns (outcomes: seq<SinkOutcome>)
    ensures |outcomes| == |SINK_ORDER|
    ensures forall k :: 0 <= k < |outcomes| ==> outcomes[k].sink == SINK_ORDER[k]
    ensures outcomes[0] == SaveToSqlDatabase(m, env.sql, amb.sqlClock)
    ensures outcomes[1] == SendToQueue(m, env.queueReachable, amb.queueTimestamp)
    ensures outcomes[2] == GenerateProcessingReport(m, filename, env.storageReachable, fixed2)
  {
    outcomes := [];
    var sql := SaveToSqlDatabase(m, env.sql, amb.sqlClock);
    outcomes := outcomes + [sql];
    var queue := SendToQueue(m, env.queueReachable, amb.queueTimestamp);
    outcomes := outcomes + [queue];
    var report := GenerateProcessingReport(m, filename, env.storageReachable, fixed2);
    outcomes := outcomes + [report];
  }

  /**
   * The `try` block of `main`, for a name that passed the gate. `decode`
   * stands for opening the bytes as an image; it returns `None` where that
   * raises, and the handler only logs it.
   */
  method ProcessUpload(blob: Blob, decode: seq<byte> -> Option<ImageInfo>, env: Environment, amb: Ambient, fixed2: real -> string)
    returns (run: Run)
    // the content is read and decoded once, first
    ensures |run.steps| >= 2 && run.steps[..2] == [ReadContent, DecodeImage(decode(blob.content).Some?)]
    ensures !run.verdict.SkippedNotImage?
    // a decode failure triggers no sink
    ensures run.verdict == DecodeFailed <==> decode(blob.content).None?
    ensures run.verdict == DecodeFailed ==> |run.steps| == 2
    // otherwise all three sinks are attempted, in order, on the one record
    ensures run.verdict.Processed? ==>
      && run.verdict.metadata == ExtractMetadata(blob.name, blob.content, decode(blob.content).value, amb)
      && |run.steps| == 2 + |SINK_ORDER|
      && (forall k :: 2 <= k < |run.steps| ==> run.steps[k].Attempt? && run.steps[k].outcome.sink == SINK_ORDER[k - 2])
      && run.steps[2].outcome == SaveToSqlDatabase(run.verdict.metadata, env.sql, amb.sqlClock)
      && run.steps[3].outcome == SendToQueue(run.verdict.metadata, env.queueReachable, amb.queueTimestamp)
      && run.steps[4].outcome == GenerateProcessingReport(run.verdict.metadata, blob.name, env.storageReachable, fixed2)
  {
    var steps := [ReadContent];
    var content := blob.content;
    var decoded := decode(content);
    steps := steps + [DecodeImage(decoded.Some?)];
    if decoded.None? {
      return Run(DecodeFailed, steps);
    }
    var m := ExtractMetadata(blob.name, content, decoded.value, amb);
    var outcomes := ProcessMetadata(m, blob.name, env, amb, fixed2);
    steps := steps + [Attempt(outcomes[0]), Attempt(outcomes[1]), Attempt(outcomes[2])];
    assert steps == [ReadContent, DecodeImage(true), Attempt(outcomes[0]), Attempt(outcomes[1]), Attempt(outcomes[2])];
    run := Run(Processed(m), steps);
  }

  /**
   * `main`: the type gate, then the `try` block. The run always ends
   * normally: every error is caught and only logged.
   */
  method HandleBlob(blob: Blob, decode: seq<byte> -> Option<ImageInfo>, env: Environment, amb: Ambient, fixed2: real -> string)
    returns (run: Run)
    // the gate: a skipped name triggers no work at all
    ensures run.verdict == SkippedNotImage <==> !IsImageName(blob.name)
    ensures run.steps == [] <==> !IsImageName(blob.name)
    // an accepted name is read and decoded once, first
    ensures IsImageName(blob.name) ==> |run.steps| >= 2 && run.steps[..2] == [ReadContent, DecodeImage(decode(blob.content).Some?)]
    // a decode failure triggers no sink
    ensures run.verdict == DecodeFailed <==> IsImageName(blob.name) && decode(blob.content).None?
    ensures run.verdict == DecodeFailed ==> |run.steps| == 2
    // otherwise all three sinks are attempted, in order, on the one record
    ensures run.verdict.Processed? ==>
      && run.verdict.metadata == ExtractMetadata(blob.name, blob.content, decode(blob.content).value, amb)
      && |run.steps| == 2 + |SINK_ORDER|
      && (forall k :: 2 <= k < |run.steps| ==> run.steps[k].Attempt? && run.steps[k].outcome.sink == SINK_ORDER[k - 2])
      && run.steps[2].outcome == SaveToSqlDatabase(run.verdict.metadata, env.sql, amb.sqlClock)
      && run.steps[3].outcome == SendToQueue(run.verdict.metadata, env.queueReachable, amb.queueTimestamp)
      && run.steps[4].outcome == GenerateProcessingReport(run.verdict.metadata, blob.name, env.storageReachable, fixed2)
  {
    if !IsImageName(blob.name) {
      return Run(SkippedNotImage, []);
    }
    run := ProcessUpload(blob, decode, env, amb, fixed2);
  }

  /**
   * Failure isolation: a sink's outcome depends on its own environment
   * only, so breaking the queue changes nothing for the other two.
   */
  lemma QueueOutageIsIsolated(m: MetadataRecord, filename: string, env: Environment, amb: Ambient, fixed2: real -> string)
    ensures var broken := env.(queueReachable := false);
      && SaveToSqlDatabase(m, broken.sql, amb.sqlClock) == SaveToSqlDatabase(m, env.sql, amb.sqlClock)
      && GenerateProcessingReport(m, filename, broken.storageReachable, fixed2)
         == GenerateProcessingReport(m, filename, env.storageReachable, fixed2)
      && SendToQueue(m, broken.queueReachable, amb.queueTimestamp).Failed?
  {
  }

  /** `str(500)` is "500". */
  lemma FiveHundred()
    ensures IntToString(500) == "500"
  {
    assert NatToString(5) == "5";
    assert NatToString(50) == NatToString(5) + [Digit(0)];
    assert NatToString(500) == NatToString(50) + [Digit(0)];
  }

  /** The record for "photo.png", 500 by 300, RGB, 43520 bytes (42.5 KB). */
  function PhotoRecord(stem: string, content: seq<byte>, amb: Ambient): MetadataRecord {
    ExtractMetadata(stem + ".png", content, ImageInfo(500, 300, "PNG", "RGB"), amb)
  }

  /** With the database up, the row has Width 500, Height 300, Format "PNG" and 42.5 KB. */
  lemma PhotoScenarioSql(stem: string, content: seq<byte>, amb: Ambient, connection: string)
    requires |content| == 43520 && connection != ""
    ensures var sql := SaveToSqlDatabase(PhotoRecord(stem, content, amb), SqlEnvironment(true, Some(connection), true, true), amb.sqlClock);
      && sql.Delivered?
      && sql.delivery.values[4] == SqlInt(500) && sql.delivery.values[5] == SqlInt(300)
      && sql.delivery.values[2] == SqlText("PNG") && sql.delivery.values[6] == SqlFloat(42.5)
  {
  }

  /** With the queue up, one message typed "image_metadata" carries the record. */
  lemma PhotoScenarioQueue(stem: string, content: seq<byte>, amb: Ambient)
    ensures var queue := SendToQueue(PhotoRecord(stem, content, amb), true, amb.queueTimestamp);
      && queue.Delivered? && queue.delivery.message.messageType == "image_metadata"
      && queue.delivery.message.metadata == PhotoRecord(stem, content, amb)
  {
  }

  /** ...and, with storage up, it is uploaded and shows "Width: 500". */
  lemma PhotoScenarioReportWidth(stem: string, content: seq<byte>, amb: Ambient, fixed2: real -> string)
    ensures var report := GenerateProcessingReport(PhotoRecord(stem, content, amb), stem + ".png", true, fixed2);
      report.Delivered? && HasLine(report.delivery.content, "Width: 500")
  {
    var m := PhotoRecord(stem, content, amb);
    FiveHundred();
    ReportShowsMetadata(m, fixed2);
    assert "Width: " + IntToString(500) == "Width: 500";
  }
}
