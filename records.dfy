/**
 * The values bview passes around: the per-file dict built by the directory
 * scan and filled in by `process_file`, the snapshot document kept in
 * `.bview/data.json`, and the JSON view of that document that Python's
 * subscripting sees when `process_file` looks a name up in it.
 */
module Records {

  datatype Option<T> = None | Some(value: T)

  /** The Python exceptions the modelled code can raise. */
  datatype PyError = KeyError(key: string) | TypeError

  /** A value, or the exception that a Python expression raised instead. */
  datatype Result<T> = Ok(value: T) | Err(error: PyError)

  /** The part of the JSON data model that bview's documents use. */
  datatype Json =
    | JBool(b: bool)
    | JNum(n: int)
    | JStr(s: string)
    | JList(items: seq<Json>)
    | JObj(fields: map<string, Json>)

  /** Python truthiness of a decoded JSON value. */
  predicate Truthy(v: Json)
  {
    match v
    case JBool(b) => b
    case JNum(n) => n != 0
    case JStr(s) => s != ""
    case JList(items) => items != []
    case JObj(fields) => fields != map[]
  }

  /** `v[key]` in Python: a dict lookup, a KeyError for a missing key, a TypeError on anything but a dict. */
  function Subscript(v: Json, key: string): Result<Json>
  {
    match v
    case JObj(fields) => if key in fields then Ok(fields[key]) else Err(KeyError(key))
    case _ => Err(TypeError)
  }

  /** The `thumb_exists` / `thumb_stat_mtime` pair, which `process_file` always sets together. */
  datatype ThumbInfo = ThumbInfo(present: bool, statMtime: int)

  /**
   * The dict kept per file: `filename`, `abs_filename`, `stat_mtime` from the
   * scan; `thumbname` once `process_file` ran; `thumb_generated` (only ever
   * set to True, so `generated == false` means the key is absent); and the
   * optional `thumb_exists` / `thumb_stat_mtime` pair.
   */
  datatype FileRecord = FileRecord(
    filename: string,
    absFilename: string,
    statMtime: int,
    thumbname: Option<string>,
    generated: bool,
    thumb: Option<ThumbInfo>)

  /** The record the scan creates for a file, before `process_file` adds anything. */
  function Scanned(name: string, path: string, mtime: int): FileRecord
  {
    FileRecord(name, path, mtime, None, false, None)
  }

  /** The record as `json.dump` writes it: one key per field that is set. */
  function RecordJson(r: FileRecord): Json
  {
    var base := map["filename" := JStr(r.filename), "abs_filename" := JStr(r.absFilename),
                    "stat_mtime" := JNum(r.statMtime)];
    var named := if r.thumbname.Some? then base["thumbname" := JStr(r.thumbname.value)] else base;
    var gen := if r.generated then named["thumb_generated" := JBool(true)] else named;
    JObj(if r.thumb.Some?
         then gen["thumb_exists" := JBool(r.thumb.value.present)]["thumb_stat_mtime" := JNum(r.thumb.value.statMtime)]
         else gen)
  }

  /** The `{dirs, files}` document stored in `.bview/data.json`. */
  datatype Snapshot = Snapshot(dirs: seq<string>, files: map<string, FileRecord>)

  const EmptySnapshot: Snapshot := Snapshot([], map[])

  /** What `.bview/data.json` holds: nothing, something that does not open or parse, or a document. */
  datatype Stored = Absent | Unreadable | Saved(snapshot: Snapshot)

  /**
   * `read_metadata`: the stored document, or an empty one when the file is
   * missing or unreadable; it never raises.
   */
  function ReadMetadata(s: Stored): (r: Snapshot)
    ensures s.Saved? ==> r == s.snapshot
    ensures !s.Saved? ==> r.dirs == [] && r.files == map[]
  {
    match s
    case Saved(snapshot) => snapshot
    case _ => EmptySnapshot
  }

  function FilesJson(files: map<string, FileRecord>): Json
  {
    JObj(map f | f in files :: RecordJson(files[f]))
  }

  /** The top-level dict that `json.load` returns for a stored snapshot. */
  function DocJson(s: Snapshot): map<string, Json>
  {
    map["dirs" := JList(seq(|s.dirs|, i requires 0 <= i < |s.dirs| => JStr(s.dirs[i]))),
        "files" := FilesJson(s.files)]
  }
}
