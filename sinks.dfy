/**
 * The three sinks. Each is a function of the shared metadata record and
 * of the abstract outcome of its own external calls: it returns what it
 * delivered, or why it failed. Every failure is a value, since each sink
 * catches all of its own exceptions.
 */
module Sinks {
  import opened Wrappers
  import opened Metadata
  import opened Report

  datatype Sink = SqlDatabase | StorageQueue | ReportStorage

  /** The order `process_metadata` calls the sinks in. */
  const SINK_ORDER: seq<Sink> := [SqlDatabase, StorageQueue, ReportStorage]

  datatype SinkError =
    | NotConfigured        // no SQL connection string: logged, returns early
    | TransportError       // a library or network call raised
    | MissingKey(key: string)  // `metadata[key]` raised KeyError

  datatype SqlValue = SqlText(text: string) | SqlInt(n: int) | SqlFloat(x: real) | SqlTimestamp(iso: string)

  /** `send_to_queue`'s message dictionary: exactly these three keys. */
  datatype QueueMessage = QueueMessage(metadata: MetadataRecord, timestamp: string, messageType: string)

  datatype Delivery =
    | RowInserted(table: string, values: seq<SqlValue>)
    | MessageSent(queue: string, message: QueueMessage)
    | ReportUploaded(container: string, name: string, content: string)

  datatype SinkOutcome = Delivered(sink: Sink, delivery: Delivery) | Failed(sink: Sink, error: SinkError)

  // ---------------------------------------------------------------- SQL

  const SQL_TABLE := "ImageMetadata"
  const SQL_COLUMNS: seq<string> :=
    ["Id", "FileName", "Format", "Mode", "Width", "Height", "FileSizeKB", "CreatedAt", "ProcessingTime"]

  /**
   * The value bound to column `col`, by the column's name: `None` for a
   * column whose key is read without default and is missing.
   */
  function ColumnValue(m: MetadataRecord, col: string, clock: SqlClock): Option<SqlValue> {
    if col == "Id" then (if m.id.Some? then Some(SqlText(m.id.value)) else None)
    else if col == "FileName" then (if m.filename.Some? then Some(SqlText(m.filename.value)) else None)
    else if col == "Format" then Some(SqlText(m.format.GetOr("")))
    else if col == "Mode" then Some(SqlText(m.mode.GetOr("")))
    else if col == "Width" then Some(SqlInt(m.width.GetOr(0)))
    else if col == "Height" then Some(SqlInt(m.height.GetOr(0)))
    else if col == "FileSizeKB" then Some(SqlFloat(m.fileSizeKb.GetOr(0.0)))
    else if col == "CreatedAt" then Some(SqlTimestamp(m.createdAt.GetOr(clock.createdAt)))
    else if col == "ProcessingTime" then Some(SqlTimestamp(m.processingTime.GetOr(clock.processingTime)))
    else None
  }

  /**
   * The parameter tuple of the INSERT, in column order. `id` and
   * `filename` are read without default, so a missing one raises before
   * anything is inserted; `clock` holds the two current times the
   * timestamps fall back on.
   */
  function SqlParameters(m: MetadataRecord, clock: SqlClock): (r: Result<seq<SqlValue>, string>)
    ensures r.Success? <==> m.id.Some? && m.filename.Some?
    ensures r.Failure? ==> r.error == (if m.id.None? then "id" else "filename")
    ensures r.Success? ==>
      |r.value| == |SQL_COLUMNS| &&
      forall k :: 0 <= k < |SQL_COLUMNS| ==> ColumnValue(m, SQL_COLUMNS[k], clock) == Some(r.value[k])
  {
    if m.id.None? then Failure("id")
    else if m.filename.None? then Failure("filename")
    else Success([
      SqlText(m.id.value),
      SqlText(m.filename.value),
      SqlText(m.format.GetOr("")),
      SqlText(m.mode.GetOr("")),
      SqlInt(m.width.GetOr(0)),
      SqlInt(m.height.GetOr(0)),
      SqlFloat(m.fileSizeKb.GetOr(0.0)),
      SqlTimestamp(m.createdAt.GetOr(clock.createdAt)),
      SqlTimestamp(m.processingTime.GetOr(clock.processingTime))])
  }

  /**
   * What the SQL sink's external calls do: `import pyodbc`, which comes
   * before the configuration test; connect and create the table; insert
   * and commit.
   */
  datatype SqlEnvironment = SqlEnvironment(imports: bool, connectionString: Option<string>, connects: bool, inserts: bool)

  /** The connection string is present and not empty (`if not connection_string` fails). */
  predicate SqlConfigured(env: SqlEnvironment) {
    env.connectionString.Some? && env.connectionString.value != ""
  }

  /** `save_to_sql_database`. */
  function SaveToSqlDatabase(m: MetadataRecord, env: SqlEnvironment, clock: SqlClock): (o: SinkOutcome)
    ensures o.sink == SqlDatabase
    ensures !env.imports ==> o == Failed(SqlDatabase, TransportError)
    ensures o.Failed? && o.error == NotConfigured <==> env.imports && !SqlConfigured(env)
    ensures o.Delivered? <==>
      env.imports && SqlConfigured(env) && env.connects && env.inserts && SqlParameters(m, clock).Success?
    ensures o.Delivered? ==> o.delivery == RowInserted(SQL_TABLE, SqlParameters(m, clock).value)
    ensures o.Failed? && o.error.MissingKey? ==>
      env.imports && SqlConfigured(env) && env.connects && SqlParameters(m, clock).Failure?
  {
    if !env.imports then Failed(SqlDatabase, TransportError)
    else if !SqlConfigured(env) then Failed(SqlDatabase, NotConfigured)
    else if !env.connects then Failed(SqlDatabase, TransportError)
    else match SqlParameters(m, clock)
      case Failure(key) => Failed(SqlDatabase, MissingKey(key))
      case Success(row) =>
        if env.inserts then Delivered(SqlDatabase, RowInserted(SQL_TABLE, row))
        else Failed(SqlDatabase, TransportError)
  }

  /** For the record the trigger builds, the row holds its values column by column. */
  lemma SqlRowOfExtracted(name: string, content: seq<byte>, info: ImageInfo, amb: Ambient, clock: SqlClock)
    ensures var r := SqlParameters(ExtractMetadata(name, content, info, amb), clock);
      r == Success([
        SqlText(amb.id), SqlText(name), SqlText(info.format), SqlText(info.mode),
        SqlInt(info.width), SqlInt(info.height), SqlFloat(|content| as real / 1024.0),
        SqlTimestamp(amb.createdAt), SqlTimestamp(amb.processingTime)])
  {
  }

  /** The defaults: a record with only `id` and `filename` gets '' and 0, and the two clock readings for its timestamps. */
  lemma SqlDefaults(id: string, filename: string, clock: SqlClock)
    ensures var m := MetadataRecord(Some(id), Some(filename), None, None, None, None, None, None, None);
      SqlParameters(m, clock) == Success([
        SqlText(id), SqlText(filename), SqlText(""), SqlText(""),
        SqlInt(0), SqlInt(0), SqlFloat(0.0), SqlTimestamp(clock.createdAt), SqlTimestamp(clock.processingTime)])
  {
  }

  // -------------------------------------------------------------- queue

  const QUEUE_NAME := "image-processing-queue"
  const MESSAGE_TYPE := "image_metadata"

  /** `send_to_queue`: `reachable` says whether the client, the queue probe or creation and the send all go through. */
  function SendToQueue(m: MetadataRecord, reachable: bool, timestamp: string): (o: SinkOutcome)
    ensures o.sink == StorageQueue
    ensures o.Delivered? <==> reachable
    ensures o.Failed? ==> o.error == TransportError
    ensures o.Delivered? ==> o.delivery.MessageSent? && o.delivery.queue == QUEUE_NAME
    ensures o.Delivered? ==> o.delivery.message.metadata == m
    ensures o.Delivered? ==> o.delivery.message.messageType == MESSAGE_TYPE && o.delivery.message.timestamp == timestamp
  {
    if reachable then Delivered(StorageQueue, MessageSent(QUEUE_NAME, QueueMessage(m, timestamp, MESSAGE_TYPE)))
    else Failed(StorageQueue, TransportError)
  }

  // ------------------------------------------------------------- report

  const OUTPUT_CONTAINER := "output"

  /** `generate_processing_report`: `reachable` says whether the container probe or creation and the upload go through. */
  function GenerateProcessingReport(m: MetadataRecord, originalFilename: string, reachable: bool, fixed2: real -> string)
    : (o: SinkOutcome)
    ensures o.sink == ReportStorage
    ensures o.Delivered? <==> reachable
    ensures o.Failed? ==> o.error == TransportError
    ensures o.Delivered? ==> o.delivery.ReportUploaded? && o.delivery.container == OUTPUT_CONTAINER
    ensures o.Delivered? ==> o.delivery.name == ReportName(originalFilename) && o.delivery.content == FormatReport(m, fixed2)
  {
    if reachable then
      Delivered(ReportStorage, ReportUploaded(OUTPUT_CONTAINER, ReportName(originalFilename), FormatReport(m, fixed2)))
    else Failed(ReportStorage, TransportError)
  }

  /**
   * `upload_blob(..., overwrite=True)` on the `output` container, seen as a
   * map from object names to texts: the report replaces any earlier one of
   * the same name. A delivered report outcome is applied to it by
   * `Upload(c, o.delivery.name, o.delivery.content)`.
   */
  function Upload(container: map<string, string>, name: string, content: string): (r: map<string, string>)
    ensures r.Keys == container.Keys + {name}
    ensures r[name] == content
    ensures forall other :: other in container && other != name ==> r[other] == container[other]
  {
    container[name := content]
  }

  /** Uploading the same report twice leaves the container as uploading it once. */
  lemma UploadIsIdempotent(container: map<string, string>, name: string, content: string)
    ensures Upload(Upload(container, name, content), name, content) == Upload(container, name, content)
  {
  }

  /**
   * The trigger firing again for the same object replaces its report:
   * the container then holds only the later record's report under that name.
   */
  lemma ReportRerunKeepsLatest(container: map<string, string>, m1: MetadataRecord, m2: MetadataRecord,
                               filename: string, fixed2: real -> string)
    ensures var o1 := GenerateProcessingReport(m1, filename, true, fixed2);
      var o2 := GenerateProcessingReport(m2, filename, true, fixed2);
      && Upload(Upload(container, o1.delivery.name, o1.delivery.content), o2.delivery.name, o2.delivery.content)
         == Upload(container, ReportName(filename), FormatReport(m2, fixed2))
  {
  }
}
