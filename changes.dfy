/**
 * The change detector of `process_metadata`: `_dir_changes` and
 * `_file_changes` compare the stored snapshot with the freshly scanned
 * directory, and the overall verdict adds the first-run rule.
 */
module Changes {
  import opened Names
  import opened Records

  /** Whether some element of `xs` is missing from `ys`: the scan stops at the first one found. */
  function SomeMissing(xs: seq<string>, ys: seq<string>): (r: bool)
    ensures r <==> exists i :: 0 <= i < |xs| && xs[i] !in ys
  {
    if xs == [] then false
    else if xs[0] !in ys then true
    else SomeMissing(xs[1..], ys)
  }

  /** `_dir_changes`: compares the stored `dirs` with the current `subdirs` paths. */
  function DirChanges(prior: seq<string>, subdirs: seq<string>): (r: bool)
    ensures |subdirs| != |prior| ==> r
    ensures |subdirs| == 0 && |prior| == 0 ==> !r
    ensures |subdirs| == |prior| > 0 ==>
      (r <==> ((exists i :: 0 <= i < |subdirs| && subdirs[i] !in prior)
               || (exists j :: 0 <= j < |prior| && prior[j] !in subdirs)))
  {
    if |subdirs| != |prior| then true
    else if |subdirs| == 0 then false
    else SomeMissing(subdirs, prior) || SomeMissing(prior, subdirs)
  }

  /**
   * The test of lines 205-206: the current record carries a `thumb_exists`
   * key (whatever its value) and its thumbnail mtime is later than the
   * stored source mtime.
   */
  predicate FreshThumb(current: FileRecord, stored: FileRecord)
  {
    current.thumb.Some? && current.thumb.value.statMtime > stored.statMtime
  }

  /** The inner loop over the stored names: some stored file is no longer current. */
  predicate StoredMissing(prior: map<string, FileRecord>, files: map<string, FileRecord>)
  {
    exists p :: p in prior && p !in files
  }

  /**
   * The outer loop of `_file_changes` over the current names in order; the
   * inner loop over the stored names runs once per iteration that gets so far.
   */
  function FileScan(names: seq<string>, files: map<string, FileRecord>, prior: map<string, FileRecord>): (r: bool)
    requires ToSet(names) <= files.Keys
    ensures r <==> (exists i :: 0 <= i < |names| && (names[i] !in prior || FreshThumb(files[names[i]], prior[names[i]])))
                   || (names != [] && StoredMissing(prior, files))
  {
    if names == [] then false
    else
      assert names[0] in ToSet(names);
      var f := names[0];
      if f !in prior then true
      else if FreshThumb(files[f], prior[f]) then true
      else if StoredMissing(prior, files) then true
      else
        assert ToSet(names[1..]) <= ToSet(names);
        var rest := FileScan(names[1..], files, prior);
        assert forall i :: 0 < i < |names| ==> names[i] == names[1..][i - 1];
        assert forall i :: 0 <= i < |names| - 1 ==> names[1..][i] == names[i + 1];
        rest
  }

  /**
   * `_file_changes`: compares the stored `files` with the current ones;
   * `names` is the current dict's key order.
   */
  function FileChanges(prior: map<string, FileRecord>, names: seq<string>, files: map<string, FileRecord>): (r: bool)
    requires ToSet(names) == files.Keys
    ensures |files| != |prior| ==> r
    ensures |files| == 0 && |prior| == 0 ==> !r
    ensures |files| == |prior| > 0 ==>
      (r <==> ((exists f :: f in files && (f !in prior || FreshThumb(files[f], prior[f])))
               || StoredMissing(prior, files)))
  {
    if |files| != |prior| then true
    else if |files| == 0 then false
    else
      assert names != [] by {
        var f :| f in files;
        assert f in ToSet(names);
      }
      var r := FileScan(names, files, prior);
      assert (exists f :: f in files && (f !in prior || FreshThumb(files[f], prior[f])))
        ==> (exists i :: 0 <= i < |names| && (names[i] !in prior || FreshThumb(files[names[i]], prior[names[i]]))) by {
        if f :| f in files && (f !in prior || FreshThumb(files[f], prior[f])) {
          assert f in ToSet(names);
          var i :| 0 <= i < |names| && names[i] == f;
        }
      }
      r
  }

  /** `changes_since_last_time`: the first-run rule, then the two comparisons. */
  function Changed(prior: Snapshot, subdirs: seq<string>, names: seq<string>, files: map<string, FileRecord>): (r: bool)
    requires ToSet(names) == files.Keys
    ensures |prior.files| == 0 && |prior.dirs| == 0 ==> r
  {
    (|prior.files| == 0 && |prior.dirs| == 0)
    || DirChanges(prior.dirs, subdirs)
    || FileChanges(prior.files, names, files)
  }

  /** A list without repeats has as many distinct elements as entries. */
  lemma {:induction false} DistinctSize<T>(s: seq<T>)
    requires Distinct(s)
    ensures |ToSet(s)| == |s|
  {
    if s != [] {
      var t := s[1..];
      assert Distinct(t) by {
        forall i, j | 0 <= i < j < |t| ensures t[i] != t[j] {
          assert t[i] == s[i + 1] && t[j] == s[j + 1];
        }
      }
      DistinctSize(t);
      assert s[0] !in ToSet(t) by {
        forall k | 0 <= k < |t| ensures t[k] != s[0] {
          assert t[k] == s[k + 1];
        }
      }
      assert ToSet(s) == {s[0]} + ToSet(t) by {
        assert s == [s[0]] + t;
      }
    }
  }

  /** Two finite sets, one inside the other and of the same size, are equal. */
  lemma SubsetSameSize<T>(a: set<T>, b: set<T>)
    requires a <= b && |a| == |b|
    ensures a == b
  {
    assert |b - a| == |b| - |a|;
  }

  /**
   * For lists without repeats, `_dir_changes` reports a change exactly when
   * the stored and current paths differ as sets; order does not matter.
   */
  lemma DirChangesIsSetDifference(prior: seq<string>, subdirs: seq<string>)
    requires Distinct(prior) && Distinct(subdirs)
    ensures DirChanges(prior, subdirs) <==> ToSet(prior) != ToSet(subdirs)
  {
    DistinctSize(prior);
    DistinctSize(subdirs);
    if |prior| == |subdirs| && |prior| > 0 {
      if !DirChanges(prior, subdirs) {
        assert ToSet(subdirs) <= ToSet(prior);
        SubsetSameSize(ToSet(subdirs), ToSet(prior));
      } else if i :| 0 <= i < |subdirs| && subdirs[i] !in prior {
        assert subdirs[i] in ToSet(subdirs) - ToSet(prior);
      } else {
        var j :| 0 <= j < |prior| && prior[j] !in subdirs;
        assert prior[j] in ToSet(prior) - ToSet(subdirs);
      }
    }
  }

  /** Stored `{A, B}` against current `{B, C}`: same size, different sets, so changed. */
  lemma SameSizeDifferentDirs()
    ensures DirChanges(["A", "B"], ["B", "C"])
  {
    assert ["B", "C"][1] !in ["A", "B"];
  }

  /**
   * With no freshly stamped thumbnail, `_file_changes` reports a change
   * exactly when the stored and current file names differ.
   */
  lemma FileChangesIsNameDifference(prior: map<string, FileRecord>, names: seq<string>, files: map<string, FileRecord>)
    requires ToSet(names) == files.Keys
    requires forall f :: f in files && f in prior ==> !FreshThumb(files[f], prior[f])
    ensures FileChanges(prior, names, files) <==> prior.Keys != files.Keys
  {
    if |files| == |prior| && |files| > 0 && !FileChanges(prior, names, files) {
      assert files.Keys <= prior.Keys;
      SubsetSameSize(files.Keys, prior.Keys);
    }
  }

  /**
   * The whole verdict: a directory counts as unchanged exactly when its
   * snapshot is not the empty first-run document, its paths and file names
   * are the stored ones, and no current thumbnail is newer than the stored
   * source mtime.
   */
  lemma UnchangedExactly(prior: Snapshot, subdirs: seq<string>, names: seq<string>, files: map<string, FileRecord>)
    requires Distinct(prior.dirs) && Distinct(subdirs)
    requires ToSet(names) == files.Keys
    ensures !Changed(prior, subdirs, names, files) <==>
      && (prior.files != map[] || prior.dirs != [])
      && ToSet(prior.dirs) == ToSet(subdirs)
      && prior.files.Keys == files.Keys
      && (forall f :: f in files && f in prior.files ==> !FreshThumb(files[f], prior.files[f]))
  {
    DirChangesIsSetDifference(prior.dirs, subdirs);
    if forall f :: f in files && f in prior.files ==> !FreshThumb(files[f], prior.files[f]) {
      FileChangesIsNameDifference(prior.files, names, files);
    } else {
      var f :| f in files && f in prior.files && FreshThumb(files[f], prior.files[f]);
      if |files| == |prior.files| {
        assert |files| > 0;
      }
    }
  }

  /** A snapshot that was missing or did not parse makes the directory count as changed. */
  lemma UnreadableSnapshotIsChanged(s: Stored, subdirs: seq<string>, names: seq<string>, files: map<string, FileRecord>)
    requires !s.Saved?
    requires ToSet(names) == files.Keys
    ensures Changed(ReadMetadata(s), subdirs, names, files)
  {
  }
}
