/**
 * The metadata record the trigger builds once per image and hands to
 * every sink. In the program it is a dictionary; here each key is an
 * optional field, so that a sink's `metadata.get(key, default)` reads
 * `field.GetOr(default)` and an absent key is `None`.
 */
module Metadata {
  import opened Wrappers

  newtype byte = x: int | 0 <= x < 256

  /** What decoding the image yields: `image.width`, `.height`, `.format`, `.mode`. */
  datatype ImageInfo = ImageInfo(width: int, height: int, format: string, mode: string)

  /**
   * The two `utcnow().isoformat()` readings the SQL sink evaluates as
   * `get` defaults, one for each timestamp column; they may differ.
   */
  datatype SqlClock = SqlClock(createdAt: string, processingTime: string)

  /** Values the program draws from `uuid.uuid4()` and `datetime.utcnow()`, fixed per run. */
  datatype Ambient = Ambient(
    id: string,             // str(uuid.uuid4()) for "id"
    createdAt: string,      // first utcnow().isoformat(), for "created_at"
    processingTime: string, // second utcnow().isoformat(), for "processing_time"
    queueTimestamp: string, // utcnow().isoformat() when the queue message is built
    sqlClock: SqlClock)     // the SQL sink's two fallback readings

  datatype MetadataRecord = MetadataRecord(
    id: Option<string>,
    filename: Option<string>,
    fileSizeKb: Option<real>,
    width: Option<int>,
    height: Option<int>,
    format: Option<string>,
    mode: Option<string>,
    createdAt: Option<string>,
    processingTime: Option<string>)

  /** Every key of the dictionary is present. */
  predicate Complete(m: MetadataRecord) {
    && m.id.Some? && m.filename.Some? && m.fileSizeKb.Some?
    && m.width.Some? && m.height.Some? && m.format.Some? && m.mode.Some?
    && m.createdAt.Some? && m.processingTime.Some?
  }

  /** The dictionary built right after a successful decode. */
  function ExtractMetadata(name: string, content: seq<byte>, info: ImageInfo, amb: Ambient): (m: MetadataRecord)
    ensures Complete(m)
    ensures m.filename == Some(name)
    ensures m.fileSizeKb.value * 1024.0 == |content| as real && m.fileSizeKb.value >= 0.0
    ensures m.width == Some(info.width) && m.height == Some(info.height)
    ensures m.format == Some(info.format) && m.mode == Some(info.mode)
    ensures m.id == Some(amb.id)
    ensures m.createdAt == Some(amb.createdAt) && m.processingTime == Some(amb.processingTime)
  {
    MetadataRecord(
      id := Some(amb.id),
      filename := Some(name),
      fileSizeKb := Some(|content| as real / 1024.0),
      width := Some(info.width),
      height := Some(info.height),
      format := Some(info.format),
      mode := Some(info.mode),
      createdAt := Some(amb.createdAt),
      processingTime := Some(amb.processingTime))
  }
}
