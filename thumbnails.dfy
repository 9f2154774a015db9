/**
 * The thumbnail cache decision of `process_file`: whether the cached
 * `thumbs/<name>.png` can be kept, must be regenerated, or is left alone,
 * and what the file's record says afterwards.  The thumbnailer (`qlmanage`)
 * is an oracle: after a call the artifact is present with some mtime, or
 * absent; its exit status is never consulted.
 */
module Thumbnails {
  import opened Names
  import opened Records

  /** The path of a file's thumbnail: its name with `.png` appended, inside the thumbnail folder. */
  function ThumbPath(thumbDir: string, filename: string): string
  {
    Join(thumbDir, filename + ".png")
  }

  /**
   * Whether a file with no cached thumbnail is sent to the thumbnailer again:
   * only when `metadata` has an entry under its name whose `thumb_generated`
   * and then `thumb_exists` fields are both truthy.  The tests run left to
   * right and stop at the first false one, and a missing field or a
   * non-dict entry raises, as subscripting does in Python.
   */
  function PriorRequestsRetry(f: string, metadata: map<string, Json>): Result<bool>
  {
    if f !in metadata then Ok(false)
    else match Subscript(metadata[f], "thumb_generated")
      case Err(e) => Err(e)
      case Ok(generated) =>
        if !Truthy(generated) then Ok(false)
        else match Subscript(metadata[f], "thumb_exists")
          case Err(e) => Err(e)
          case Ok(present) => Ok(Truthy(present))
  }

  /** What `process_file` decides before calling the thumbnailer. */
  datatype Plan = Keep(mtime: int) | Regenerate | Leave

  /** `existing` is the mtime of the cached thumbnail, if there is one. */
  function PlanFor(rec: FileRecord, existing: Option<int>, metadata: map<string, Json>): Result<Plan>
  {
    if existing.Some? then
      if existing.value < rec.statMtime then Ok(Regenerate) else Ok(Keep(existing.value))
    else match PriorRequestsRetry(rec.filename, metadata)
      case Err(e) => Err(e)
      case Ok(retry) => if retry then Ok(Regenerate) else Ok(Leave)
  }

  /** The record once `process_file` returns, and whether it ran the thumbnailer. */
  datatype Step = Step(record: FileRecord, ranGenerator: bool)

  /** The record after a thumbnailer call, given what `os.stat(thumbname)` then finds. */
  function AfterGeneration(rec: FileRecord, probe: Option<int>): FileRecord
  {
    rec.(generated := true,
         thumb := Some(if probe.Some? then ThumbInfo(true, probe.value) else ThumbInfo(false, 0)))
  }

  /**
   * `process_file` on one record.  `existing` is the cached thumbnail's mtime
   * before the call and `produced` the mtime of the artifact the thumbnailer
   * writes, if it writes one; an artifact it does not replace stays on disk.
   */
  function ProcessFileSpec(rec: FileRecord, thumbDir: string, existing: Option<int>,
                           metadata: map<string, Json>, produced: Option<int>): Result<Step>
  {
    var named := rec.(thumbname := Some(ThumbPath(thumbDir, rec.filename)));
    match PlanFor(rec, existing, metadata)
    case Err(e) => Err(e)
    case Ok(Keep(m)) => Ok(Step(named.(thumb := Some(ThumbInfo(true, m))), false))
    case Ok(Leave) => Ok(Step(named, false))
    case Ok(Regenerate) =>
      Ok(Step(AfterGeneration(named, if produced.Some? then produced else existing), true))
  }

  /**
   * What `process_file` decides: the record always gets its thumbnail path
   * and keeps the scan's fields; a cached thumbnail at least as new as the
   * source is kept without calling the thumbnailer; an older one is
   * regenerated; a missing one is regenerated exactly when the lookup in
   * `metadata` says so, and an exception in that lookup propagates; and
   * after a thumbnailer call the record says what is on disk.
   */
  lemma ProcessFileDecision(rec: FileRecord, thumbDir: string, existing: Option<int>,
                            metadata: map<string, Json>, produced: Option<int>)
    ensures var r := ProcessFileSpec(rec, thumbDir, existing, metadata, produced);
      // thumbname is always set, and the scan's fields are kept
      && (r.Ok? ==>
            && r.value.record.thumbname == Some(ThumbPath(thumbDir, rec.filename))
            && r.value.record.filename == rec.filename
            && r.value.record.absFilename == rec.absFilename
            && r.value.record.statMtime == rec.statMtime)
      // a thumbnail at least as new as the source is kept, without calling the thumbnailer
      && (existing.Some? && existing.value >= rec.statMtime ==>
            && r.Ok? && !r.value.ranGenerator
            && r.value.record.thumb == Some(ThumbInfo(true, existing.value))
            && r.value.record.generated == rec.generated)
      // an older thumbnail is regenerated
      && (existing.Some? && existing.value < rec.statMtime ==> r.Ok? && r.value.ranGenerator)
      // a missing thumbnail is regenerated exactly when the lookup in metadata says so
      && (existing.None? ==>
            && (r.Ok? <==> PriorRequestsRetry(rec.filename, metadata).Ok?)
            && (r.Ok? ==> (r.value.ranGenerator <==> PriorRequestsRetry(rec.filename, metadata) == Ok(true)))
            && (r.Err? ==> r == Err(PriorRequestsRetry(rec.filename, metadata).error)))
      // without a thumbnailer call on a missing thumbnail the record gains no thumb_* key
      && (r.Ok? && !r.value.ranGenerator && existing.None? ==>
            r.value.record == rec.(thumbname := Some(ThumbPath(thumbDir, rec.filename))))
      // after a call: thumb_generated, and thumb_exists/thumb_stat_mtime from what is on disk
      && (r.Ok? && r.value.ranGenerator ==>
            && r.value.record.generated
            && var after := if produced.Some? then produced else existing;
               r.value.record.thumb == Some(if after.Some? then ThumbInfo(true, after.value) else ThumbInfo(false, 0)))
  {
  }

  /** The keys `json.dump` writes for a record: the scan's three, then one per optional field. */
  lemma RecordJsonKeys(r: FileRecord)
    ensures RecordJson(r).JObj?
    ensures "filename" in RecordJson(r).fields
    ensures "thumb_generated" in RecordJson(r).fields <==> r.generated
    ensures r.generated ==> RecordJson(r).fields["thumb_generated"] == JBool(true)
    ensures "thumb_exists" in RecordJson(r).fields <==> r.thumb.Some?
    ensures r.thumb.Some? ==> RecordJson(r).fields["thumb_exists"] == JBool(r.thumb.value.present)
  {
  }

  /**
   * The lookup as the walker performs it (line 336 passes the whole
   * `{dirs, files}` document): it never asks for a retry except for a file
   * named `files`, raises a TypeError for a file named `dirs`, and for
   * `files` subscripts the stored files dict by the names `thumb_generated`
   * and `thumb_exists`.
   */
  lemma RetryLookupOnWholeDocument(f: string, s: Snapshot)
    ensures PriorRequestsRetry(f, DocJson(s)) ==
      if f == "dirs" then Err(TypeError)
      else if f == "files" then
        (if "thumb_generated" !in s.files then Err(KeyError("thumb_generated"))
         else if "thumb_exists" !in s.files then Err(KeyError("thumb_exists"))
         else Ok(true))
      else Ok(false)
  {
    if f == "files" {
      var fields := FilesJson(s.files).fields;
      if "thumb_generated" in s.files {
        RecordJsonKeys(s.files["thumb_generated"]);
        assert fields["thumb_generated"] == RecordJson(s.files["thumb_generated"]);
        assert "filename" in RecordJson(s.files["thumb_generated"]).fields;
        if "thumb_exists" in s.files {
          RecordJsonKeys(s.files["thumb_exists"]);
          assert fields["thumb_exists"] == RecordJson(s.files["thumb_exists"]);
          assert "filename" in RecordJson(s.files["thumb_exists"]).fields;
        }
      }
    }
  }

  /**
   * The same lookup on the stored `files` dict, the dict the comment at
   * lines 254-257 describes: a stored record asks for a retry exactly when
   * it says a thumbnail was generated and existed; a stored record without
   * `thumb_generated` raises a KeyError.
   */
  lemma RetryLookupOnStoredFiles(f: string, files: map<string, FileRecord>)
    ensures PriorRequestsRetry(f, FilesJson(files).fields) ==
      if f !in files then Ok(false)
      else if !files[f].generated then Err(KeyError("thumb_generated"))
      else if files[f].thumb.None? then Err(KeyError("thumb_exists"))
      else Ok(files[f].thumb.value.present)
  {
    if f in files {
      RecordJsonKeys(files[f]);
      assert FilesJson(files).fields[f] == RecordJson(files[f]);
    }
  }

  /**
   * As the walker calls it, `process_file` never runs the thumbnailer for a
   * file that has no cached thumbnail, unless the file is named `files`.
   */
  lemma MissingThumbnailNotGenerated(rec: FileRecord, thumbDir: string, s: Snapshot, produced: Option<int>)
    requires rec.filename != "dirs" && rec.filename != "files"
    ensures ProcessFileSpec(rec, thumbDir, None, DocJson(s), produced)
         == Ok(Step(rec.(thumbname := Some(ThumbPath(thumbDir, rec.filename))), false))
  {
    RetryLookupOnWholeDocument(rec.filename, s);
  }

  /**
   * Were the stored files dict passed, a file whose thumbnailer call left no
   * artifact last run would not be resubmitted.
   */
  lemma NoRetryAfterFailedGeneration(rec: FileRecord, thumbDir: string, files: map<string, FileRecord>, produced: Option<int>)
    requires rec.filename in files
    requires files[rec.filename].generated && files[rec.filename].thumb == Some(ThumbInfo(false, 0))
    ensures ProcessFileSpec(rec, thumbDir, None, FilesJson(files).fields, produced).Ok?
    ensures !ProcessFileSpec(rec, thumbDir, None, FilesJson(files).fields, produced).value.ranGenerator
  {
    RetryLookupOnStoredFiles(rec.filename, files);
  }
}
