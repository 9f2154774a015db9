/**
 * The walker of bview over an abstract filesystem.  The user's tree (its
 * directories, their entry names, the mtimes of its files) never changes
 * during a run; what bview itself owns changes: a `.bview/` folder per
 * directory holding `data.json` and `thumbs/`, and a `bview.html` per
 * directory.  The thumbnail generator is a fixed oracle from source path to
 * the mtime of the artifact it would write.
 *
 * `process_dir_work` is one function in Python; here it is a chain of
 * methods (`ProcessDirWork`, `WorkOnListing`, then `ProcessSubdirs` with
 * `VisitSubdir` per subdirectory, then `FinishDir` with `ProcessDirFiles`
 * and `RecordDir`), and what follows from each branch or loop turn is
 * proved by lemmas over plain maps and logs, so that every proof stays
 * small.  The steps and their order are those of the Python function.
 */
module Walker {
  import opened Names
  import opened Records
  import opened Changes
  import opened Thumbnails
  import opened Index

  const MetadataDirname: string := ".bview"
  const MetadataFilename: string := "data.json"
  const HtmlFilename: string := "bview.html"

  /**
   * `dirs_to_skip`.  The missing comma after `'.TemporaryItems'` makes
   * Python concatenate it with the next literal, so the list holds
   * `.TemporaryItems.ssh` and neither of its two halves.
   */
  const DirsToSkip: seq<string> :=
    [MetadataDirname, ".git", ".svn", ".Trash", ".TemporaryItems" + ".ssh",
     ".subversion", ".gnupg", ".bash_sessions", ".cache", ".credentials", ".cups", ".dropbox"]

  /** `files_to_skip`. */
  const FilesToSkip: seq<string> := [".DS_Store", HtmlFilename]

  lemma MissingCommaInSkipList()
    ensures ".TemporaryItems" !in DirsToSkip && ".ssh" !in DirsToSkip
    ensures ".TemporaryItems.ssh" in DirsToSkip
    ensures MetadataDirname in DirsToSkip && HtmlFilename in FilesToSkip
  {
    assert DirsToSkip[4] == ".TemporaryItems.ssh";
  }

  /**
   * Appending in two steps is appending once.  Called where an inline
   * assertion would be proved in a large context.
   */
  lemma AppendAssoc<T>(a: seq<T>, b: seq<T>, c: seq<T>)
    ensures a + b + c == a + (b + c)
  {
  }

  /** Two updates of the same key: the second one wins (called for the same reason). */
  lemma UpdateTwice<K, V>(m: map<K, V>, k: K, a: V, b: V)
    ensures m[k := a][k := b] == m[k := b]
  {
  }

  function Lookup<T>(m: map<string, T>, k: string): Option<T>
  {
    if k in m then Some(m[k]) else None
  }

  /** A directory's `.bview/` folder: `data.json`, whether `thumbs/` exists, and the files in `thumbs/` with their mtimes. */
  datatype AdminDir = AdminDir(data: Stored, hasThumbs: bool, thumbs: map<string, int>)

  const NewAdminDir: AdminDir := AdminDir(Absent, false, map[])

  /** What the scan of one directory builds: `subdirs`, and the `files` dict as key order plus contents. */
  datatype Listing = Listing(subdirs: seq<string>, names: seq<string>, files: map<string, FileRecord>)

  /**
   * The order of work, as a log of the steps the walker takes.  `Failed`
   * marks the exception a file of `dir` raised, which ends the walk.
   */
  datatype Event =
    | Pruned(dir: string)
    | Began(dir: string)
    | ThumbsReady(dir: string)
    | SnapshotWritten(dir: string)
    | IndexWritten(dir: string, parentLink: bool)
    | Failed(dir: string, error: PyError)

  /** Where the loop over a directory's files stands. */
  datatype FilesRun = FilesRun(files: map<string, FileRecord>, thumbs: map<string, int>, done: nat, failure: Option<PyError>)

  /** A run finishes, or an exception escapes and ends it. */
  datatype Status = Completed | Raised(error: PyError)

  /** How a run ended, with the `.bview/` folders and the indexes it left. */
  datatype WalkResult = WalkResult(status: Status, admin: map<string, AdminDir>, indexes: map<string, seq<Row>>)

  function MetadataDir(d: string): string { Join(d, MetadataDirname) }

  function ThumbDir(d: string): string { Join(MetadataDir(d), "thumbs") }

  /** Nothing outside directory `d` was added, removed or changed. */
  ghost predicate Untouched<T>(before: map<string, T>, after: map<string, T>, d: string)
  {
    forall p :: !Within(p, d) ==> (p in before <==> p in after) && (p in before ==> before[p] == after[p])
  }

  /** `thumbs/` is made ready when the directory has a file. */
  function ThumbsEvents(d: string, names: seq<string>): seq<Event>
  {
    if names != [] then [ThumbsReady(d)] else []
  }

  /** The steps `process_dir_work` takes for `d` itself once its subdirectories are done, when no file raises. */
  function OwnEvents(d: string, names: seq<string>, changed: bool, parentLink: bool): (events: seq<Event>)
    ensures forall k :: 0 <= k < |events| ==>
      events[k].dir == d && !events[k].Failed? && (events[k].IndexWritten? ==> events[k].parentLink == parentLink)
  {
    ThumbsEvents(d, names) + (if changed then [SnapshotWritten(d), IndexWritten(d, parentLink)] else [])
  }

  /** The logs of several directories, one after another. */
  function Flatten(segs: seq<seq<Event>>): seq<Event>
  {
    if segs == [] then [] else Flatten(segs[..|segs| - 1]) + segs[|segs| - 1]
  }

  lemma FlattenSnoc(segs: seq<seq<Event>>, seg: seq<Event>)
    ensures Flatten(segs + [seg]) == Flatten(segs) + seg
  {
    assert (segs + [seg])[..|segs|] == segs;
  }

  ghost predicate NoFailure(t: seq<Event>)
  {
    forall k :: 0 <= k < |t| ==> !t[k].Failed?
  }

  /** A log agrees with how its run ended: no exception, or one that is logged last and nowhere before. */
  ghost predicate Reports(t: seq<Event>, status: Status)
  {
    if status.Completed? then NoFailure(t)
    else t != [] && t[|t| - 1] == Failed(t[|t| - 1].dir, status.error) && NoFailure(t[..|t| - 1])
  }

  lemma ReportsAppend(t: seq<Event>, u: seq<Event>, status: Status)
    requires NoFailure(t) && Reports(u, status)
    ensures Reports(t + u, status)
  {
    if status.Raised? {
      assert (t + u)[..|t + u| - 1] == t + u[..|u| - 1];
    }
  }

  /**
   * A subdirectory `c` processed by `process_dir(c)`: it was left alone,
   * pruned, or begun; everything logged lies within it; and every index
   * written has a parent link, since `topdir` is false there.
   */
  ghost predicate ChildVisit(c: string, seg: seq<Event>)
  {
    && (seg == [] || seg == [Pruned(c)] || seg[0] == Began(c))
    && forall k :: 0 <= k < |seg| ==> Within(seg[k].dir, c) && (seg[k].IndexWritten? ==> seg[k].parentLink)
  }

  /**
   * The loop over the sorted subdirectories, each by `process_dir`, ended with `status`
   * after visiting the first `|segs|` of `subs` in order, the `i`-th one
   * logging `segs[i]`: it stops exactly after the first subdirectory
   * whose processing raised, and that exception is its result.
   */
  ghost predicate SubdirVisits(subs: seq<string>, segs: seq<seq<Event>>, status: Status)
  {
    && |segs| <= |subs|
    && (forall i :: 0 <= i < |segs| ==> ChildVisit(subs[i], segs[i]))
    && (forall i :: 0 <= i < |segs| - 1 ==> NoFailure(segs[i]))
    && (status.Completed? ==> |segs| == |subs| && (segs != [] ==> NoFailure(segs[|segs| - 1])))
    && (status.Raised? ==> segs != [] && Reports(segs[|segs| - 1], status))
  }

  /** A subdirectory's segment agrees with its listing: empty, pruned, or begun. */
  ghost predicate VisitMatches(c: string, contents: seq<string>, seg: seq<Event>)
  {
    && (contents == [] ==> seg == [])
    && (contents == [MetadataDirname] ==> seg == [Pruned(c)])
    && (contents != [] && contents != [MetadataDirname] ==> seg != [] && seg[0] == Began(c))
  }

  /** Of the indexes the steps from `t0` to `t1` write inside `d`, only `d`'s own lacks a parent link, and only when it is the top directory. */
  ghost predicate LinksUp(t0: seq<Event>, t1: seq<Event>, d: string, topdir: bool)
  {
    forall k :: |t0| <= k < |t1| && t1[k].IndexWritten? ==> (t1[k].parentLink <==> !topdir || t1[k].dir != d)
  }

  /** Every index rewritten inside `d` starts with the parent row, except `d`'s own when it is the top directory. */
  ghost predicate ParentRows(i0: map<string, seq<Row>>, i1: map<string, seq<Row>>, d: string, topdir: bool)
  {
    forall e :: e in i1 && Within(e, d) && (e != d || !topdir) && (e in i0 ==> i1[e] != i0[e]) ==>
      i1[e] != [] && i1[e][0] == ParentRow(e)
  }

  /**
   * The frame of processing `d`, from `(a0, i0, t0)` to `(a1, i1, t1)`:
   * nothing outside `d` changes, the log only grows and only with steps
   * inside `d`, it reports how the run ended, and every index written
   * inside `d` has a parent link except `d`'s own when it is the top
   * directory.
   */
  ghost predicate Confined(d: string, topdir: bool,
                           a0: map<string, AdminDir>, i0: map<string, seq<Row>>, t0: seq<Event>,
                           a1: map<string, AdminDir>, i1: map<string, seq<Row>>, t1: seq<Event>, status: Status)
  {
    && Untouched(a0, a1, d) && Untouched(i0, i1, d)
    && ExtendsWithin(t0, t1, d) && Reports(t1[|t0|..], status)
    && LinksUp(t0, t1, d, topdir) && ParentRows(i0, i1, d, topdir)
  }

  /**
   * The loop over the subdirectories `subs` of `d` ran from `(a0, i0, t0)`
   * to `(a1, i1, t1)`, visiting them as `SubdirVisits` says: nothing outside
   * `d` and neither `d`'s `.bview/` nor its index changed, every step logged
   * lies strictly inside `d` and writes no index without a parent link, and
   * every index rewritten inside `d` starts with the parent row.
   */
  ghost predicate SubdirsDone(d: string, subs: seq<string>,
                              a0: map<string, AdminDir>, i0: map<string, seq<Row>>, t0: seq<Event>,
                              a1: map<string, AdminDir>, i1: map<string, seq<Row>>, t1: seq<Event>,
                              segs: seq<seq<Event>>, status: Status)
  {
    && Untouched(a0, a1, d) && Untouched(i0, i1, d)
    && (d in a1 <==> d in a0) && (d in a1 ==> a1[d] == a0[d])
    && (d in i1 <==> d in i0) && (d in i1 ==> i1[d] == i0[d])
    && t1 == t0 + Flatten(segs) && SubdirVisits(subs, segs, status)
    && (forall k :: |t0| <= k < |t1| ==> StrictlyWithin(t1[k].dir, d) && (t1[k].IndexWritten? ==> t1[k].parentLink))
    && Reports(t1[|t0|..], status)
    && ParentRows(i0, i1, d, true)
  }

  /**
   * After the loop over the subdirectories of `d`, `d`'s own steps `own`
   * and the update of its own `.bview/` entry and index keep `d`'s
   * processing confined.
   */
  lemma OwnStep(d: string, topdir: bool, subs: seq<string>,
                a0: map<string, AdminDir>, i0: map<string, seq<Row>>, t0: seq<Event>,
                a1: map<string, AdminDir>, i1: map<string, seq<Row>>, t1: seq<Event>, segs: seq<seq<Event>>,
                a2: map<string, AdminDir>, i2: map<string, seq<Row>>, t2: seq<Event>, own: seq<Event>, status: Status)
    requires SubdirsDone(d, subs, a0, i0, t0 + [Began(d)], a1, i1, t1, segs, Completed)
    requires d in a1 && d in a2 && a2 == a1[d := a2[d]]
    requires i2 == i1 || (d in i2 && i2 == i1[d := i2[d]] && (!topdir ==> i2[d] != [] && i2[d][0] == ParentRow(d)))
    requires t2 == t1 + own && Reports(own, status)
    requires forall k :: 0 <= k < |own| ==> own[k].dir == d && (own[k].IndexWritten? ==> own[k].parentLink == !topdir)
    ensures Confined(d, topdir, a0, i0, t0, a2, i2, t2, status) && |t2| > |t0| && t2[|t0|] == Began(d)
  {
    UntouchedUpdate(a1, d, a2[d]);
    UntouchedTrans(a0, a1, a2, d);
    if i2 != i1 {
      UntouchedUpdate(i1, d, i2[d]);
      UntouchedTrans(i0, i1, i2, d);
    }
    var kids := Flatten(segs);
    assert t2 == t0 + [Began(d)] + kids + own;
    forall k | 0 <= k < |kids|
      ensures StrictlyWithin(kids[k].dir, d) && (kids[k].IndexWritten? ==> kids[k].parentLink)
    {
      assert kids[k] == t1[|t0| + 1 + k];
    }
    assert t1[|t0 + [Began(d)]|..] == kids;
    ReportsAppend(kids, own, status);
    DirLog(t0, d, topdir, kids, own, status);
    ParentRowsOwn(i0, i1, i2, d, topdir);
  }

  /** A subdirectory's processing keeps the parent-row property of the loop over its siblings. */
  lemma ParentRowsStep(i0: map<string, seq<Row>>, i1: map<string, seq<Row>>, i2: map<string, seq<Row>>, c: string, d: string)
    requires ParentRows(i0, i1, d, true) && ParentRows(i1, i2, c, false) && Untouched(i1, i2, c) && StrictlyWithin(c, d)
    ensures ParentRows(i0, i2, d, true)
  {
    forall e | e in i2 && Within(e, d) && e != d && (e in i0 ==> i2[e] != i0[e])
      ensures i2[e] != [] && i2[e][0] == ParentRow(e)
    {
      if !(Within(e, c) && (e in i1 ==> i2[e] != i1[e])) {
        assert e in i1 && i2[e] == i1[e];
      }
    }
  }

  /** `after` continues `before`, and everything appended concerns `d` or what lies inside it. */
  ghost predicate ExtendsWithin(before: seq<Event>, after: seq<Event>, d: string)
  {
    |before| <= |after| && after[..|before|] == before && forall k :: |before| <= k < |after| ==> Within(after[k].dir, d)
  }

  /** Replacing what belongs to `d` touches nothing outside `d`. */
  lemma UntouchedUpdate<T>(m: map<string, T>, d: string, v: T)
    ensures Untouched(m, m[d := v], d)
  {
    assert Within(d, d);
  }

  lemma UntouchedTrans<T>(a: map<string, T>, b: map<string, T>, c: map<string, T>, d: string)
    requires Untouched(a, b, d) && Untouched(b, c, d)
    ensures Untouched(a, c, d)
  {
  }

  /**
   * The log of `process_dir_work`: its own start, then its subdirectories'
   * steps, then its own.  It stays inside `d`, only `d`'s own index can
   * lack a parent link, and it reports how the run ended.
   */
  lemma DirLog(t0: seq<Event>, d: string, topdir: bool, kids: seq<Event>, own: seq<Event>, status: Status)
    requires forall k :: 0 <= k < |kids| ==> StrictlyWithin(kids[k].dir, d) && (kids[k].IndexWritten? ==> kids[k].parentLink)
    requires forall k :: 0 <= k < |own| ==> own[k].dir == d && (own[k].IndexWritten? ==> own[k].parentLink == !topdir)
    requires Reports(kids + own, status)
    ensures var t := t0 + [Began(d)] + kids + own;
      && ExtendsWithin(t0, t, d) && |t| > |t0| && t[|t0|] == Began(d)
      && LinksUp(t0, t, d, topdir) && Reports(t[|t0|..], status)
  {
    var t := t0 + [Began(d)] + kids + own;
    assert t[..|t0|] == t0;
    assert t[|t0|..] == [Began(d)] + (kids + own);
    ReportsAppend([Began(d)], kids + own, status);
    forall k | |t0| <= k < |t| ensures Within(t[k].dir, d) && (t[k].IndexWritten? ==> (t[k].parentLink <==> !topdir || t[k].dir != d)) {
      if k == |t0| {
      } else if k < |t0| + 1 + |kids| {
        assert t[k] == kids[k - |t0| - 1];
      } else {
        assert t[k] == own[k - |t0| - 1 - |kids|];
      }
    }
  }

  /** The parent-row property of `d` from that of its subdirectories and `d`'s own index. */
  lemma ParentRowsOwn(i0: map<string, seq<Row>>, i1: map<string, seq<Row>>, i2: map<string, seq<Row>>, d: string, topdir: bool)
    requires ParentRows(i0, i1, d, true)
    requires (d in i1 <==> d in i0) && (d in i1 ==> i1[d] == i0[d])
    requires forall e :: e != d ==> (e in i1 <==> e in i2) && (e in i1 ==> i1[e] == i2[e])
    requires d in i2 && (d in i0 ==> i2[d] != i0[d]) && !topdir ==> i2[d] != [] && i2[d][0] == ParentRow(d)
    ensures ParentRows(i0, i2, d, topdir)
  {
  }

  /** The paths of the thumbnails `thumbs` of directory `d`. */
  function ThumbPaths(d: string, thumbs: map<string, int>): set<string>
  {
    set k | k in thumbs :: Join(ThumbDir(d), k)
  }

  /** What a subdirectory's processing leaves alone, its parent's processing leaves alone too, and the parent's own entry as well. */
  lemma ChildStaysWithin<T>(before: map<string, T>, after: map<string, T>, c: string, d: string)
    requires Untouched(before, after, c) && StrictlyWithin(c, d)
    ensures Untouched(before, after, d)
    ensures (d in before <==> d in after) && (d in before ==> before[d] == after[d])
  {
    forall p | !Within(p, d) ensures !Within(p, c) {
      if Within(p, c) { WithinChild(p, c, d); }
    }
  }

  /** A directory lists each name once, never the two names bview owns, and no name with a `/`. */
  ghost predicate ProperEntries(entries: seq<string>)
  {
    && Distinct(entries) && MetadataDirname !in entries && HtmlFilename !in entries
    && forall n :: n in entries ==> '/' !in n
  }

  class BView {
    /** The user's directories: path to the names of the entries bview does not own. */
    const tree: map<string, seq<string>>
    /** The user's non-directory paths that exist, with their mtimes. */
    const stats: map<string, int>
    /** The thumbnailer: source path to the mtime of the `.png` it writes; absent when it writes none. */
    const quicklook: map<string, int>
    /** The `.bview/` folders, by directory. */
    var admin: map<string, AdminDir>
    /** The `bview.html` files, by directory. */
    var indexes: map<string, seq<Row>>
    ghost var trace: seq<Event>

    constructor (tree: map<string, seq<string>>, stats: map<string, int>, quicklook: map<string, int>,
                 admin: map<string, AdminDir>, indexes: map<string, seq<Row>>)
      requires forall d :: d in tree ==> ProperEntries(tree[d])
      ensures Valid()
      ensures this.tree == tree && this.stats == stats && this.quicklook == quicklook
      ensures this.admin == admin && this.indexes == indexes && trace == []
    {
      this.tree := tree;
      this.stats := stats;
      this.quicklook := quicklook;
      this.admin := admin;
      this.indexes := indexes;
      trace := [];
    }

    /** Every directory of the user's tree has proper entries. */
    ghost predicate Valid()
    {
      forall d :: d in tree ==> ProperEntries(tree[d])
    }

    /**
     * The entry names of `d`, as `os.listdir` returns them when bview's own
     * folders are `a` and its indexes `ix`: the user's entries, then the ones
     * bview owns.
     */
    function ListDir(d: string, a: map<string, AdminDir>, ix: map<string, seq<Row>>): seq<string>
      requires d in tree
    {
      tree[d] + (if d in a then [MetadataDirname] else []) + (if d in ix then [HtmlFilename] else [])
    }

    /** Whether entry `n` of `d` is a directory, given bview's folders `a`. */
    predicate IsDir(d: string, n: string, a: map<string, AdminDir>)
    {
      Join(d, n) in tree || (n == MetadataDirname && d in a)
    }

    /** Whether entry `n` of `d` exists, given bview's folders `a` and indexes `ix`. */
    predicate PathExists(d: string, n: string, a: map<string, AdminDir>, ix: map<string, seq<Row>>)
    {
      IsDir(d, n, a) || Join(d, n) in stats || (n == HtmlFilename && d in ix)
    }

    /** The scan loop of lines 297-316 over `names`, one name at a time from the front, against `a` and `ix`. */
    function ScanSpec(d: string, names: seq<string>, a: map<string, AdminDir>, ix: map<string, seq<Row>>): Listing
    {
      if names == [] then Listing([], [], map[])
      else
        var prev := ScanSpec(d, names[..|names| - 1], a, ix);
        var n := names[|names| - 1];
        var path := Join(d, n);
        if IsDir(d, n, a) then
          if n in DirsToSkip then prev else prev.(subdirs := prev.subdirs + [path])
        else if n in FilesToSkip then prev
        else if PathExists(d, n, a, ix) then
          prev.(names := prev.names + [n], files := prev.files[n := Scanned(n, path, stats[path])])
        else prev
    }

    /**
     * Classification: a subdirectory path is kept iff its entry is a
     * directory not in the skip list; a file is kept iff it is not a
     * directory, not in the skip list and exists; each kept file starts with
     * its name, its path and its mtime.
     */
    lemma ScanClassifies(d: string, names: seq<string>, a: map<string, AdminDir>, ix: map<string, seq<Row>>)
      ensures var s := ScanSpec(d, names, a, ix);
        && ToSet(s.names) == s.files.Keys
        && (forall n :: n in names ==> (Join(d, n) in s.subdirs <==> IsDir(d, n, a) && n !in DirsToSkip))
        && (forall n :: n in names ==> (n in s.files <==> !IsDir(d, n, a) && n !in FilesToSkip && Join(d, n) in stats))
        && (forall n :: n in s.files ==>
              n in names && Join(d, n) in stats && s.files[n] == Scanned(n, Join(d, n), stats[Join(d, n)]))
        && (forall i :: 0 <= i < |s.subdirs| ==> exists n :: n in names && s.subdirs[i] == Join(d, n))
    {
      ScanClassifiesFiles(d, names, a, ix);
      ScanClassifiesDirs(d, names, a, ix);
    }

    /** The file half of `ScanClassifies`. */
    lemma {:induction false} ScanClassifiesFiles(d: string, names: seq<string>, a: map<string, AdminDir>, ix: map<string, seq<Row>>)
      ensures var s := ScanSpec(d, names, a, ix);
        && ToSet(s.names) == s.files.Keys
        && (forall n :: n in names ==> (n in s.files <==> !IsDir(d, n, a) && n !in FilesToSkip && Join(d, n) in stats))
        && (forall n :: n in s.files ==>
              n in names && Join(d, n) in stats && s.files[n] == Scanned(n, Join(d, n), stats[Join(d, n)]))
    {
      if names != [] {
        var init := names[..|names| - 1];
        var n := names[|names| - 1];
        ScanClassifiesFiles(d, init, a, ix);
        assert names == init + [n];
      }
    }

    /** The subdirectory half of `ScanClassifies`. */
    lemma {:induction false} ScanClassifiesDirs(d: string, names: seq<string>, a: map<string, AdminDir>, ix: map<string, seq<Row>>)
      ensures var s := ScanSpec(d, names, a, ix);
        && (forall n :: n in names ==> (Join(d, n) in s.subdirs <==> IsDir(d, n, a) && n !in DirsToSkip))
        && (forall i :: 0 <= i < |s.subdirs| ==> exists n :: n in names && s.subdirs[i] == Join(d, n))
    {
      if names != [] {
        var init := names[..|names| - 1];
        var n := names[|names| - 1];
        ScanClassifiesDirs(d, init, a, ix);
        assert names == init + [n];
        var prev := ScanSpec(d, init, a, ix);
        forall m | m in init ensures Join(d, m) == Join(d, n) ==> m == n {
          if Join(d, m) == Join(d, n) { JoinInjective(d, m, n); }
        }
        var s := ScanSpec(d, names, a, ix);
        forall i | 0 <= i < |s.subdirs| ensures exists m :: m in names && s.subdirs[i] == Join(d, m) {
          if i < |prev.subdirs| {
            var m :| m in init && prev.subdirs[i] == Join(d, m);
            assert m in names;
          } else {
            assert s.subdirs[i] == Join(d, n);
          }
        }
      }
    }

    /** Scanning names in sorted order yields the paths and the file names in sorted order, without repeats. */
    lemma {:induction false} ScanKeepsOrder(d: string, names: seq<string>, a: map<string, AdminDir>, ix: map<string, seq<Row>>)
      requires Sorted(names) && Distinct(names)
      ensures var s := ScanSpec(d, names, a, ix);
        Sorted(s.subdirs) && Distinct(s.subdirs) && Sorted(s.names) && Distinct(s.names)
    {
      if names != [] {
        var init := names[..|names| - 1];
        assert Sorted(init) && Distinct(init);
        ScanKeepsOrder(d, init, a, ix);
        ScanPrecedesLast(d, names, a, ix);
      }
    }

    /** What was scanned before the last name sorts strictly before it. */
    lemma ScanPrecedesLast(d: string, names: seq<string>, a: map<string, AdminDir>, ix: map<string, seq<Row>>)
      requires names != [] && Sorted(names) && Distinct(names)
      ensures var prev := ScanSpec(d, names[..|names| - 1], a, ix);
        var n := names[|names| - 1];
        && (forall i :: 0 <= i < |prev.subdirs| ==> Below(prev.subdirs[i], Join(d, n)) && prev.subdirs[i] != Join(d, n))
        && (forall i :: 0 <= i < |prev.names| ==> Below(prev.names[i], n) && prev.names[i] != n)
    {
      var init := names[..|names| - 1];
      var n := names[|names| - 1];
      ScanClassifies(d, init, a, ix);
      var prev := ScanSpec(d, init, a, ix);
      forall i | 0 <= i < |prev.subdirs| ensures Below(prev.subdirs[i], Join(d, n)) && prev.subdirs[i] != Join(d, n) {
        var m :| m in init && prev.subdirs[i] == Join(d, m);
        var k :| 0 <= k < |init| && init[k] == m;
        assert names[k] == m;
        JoinKeepsOrder(d, m, n);
        if prev.subdirs[i] == Join(d, n) { JoinInjective(d, m, n); }
      }
      forall i | 0 <= i < |prev.names| ensures Below(prev.names[i], n) && prev.names[i] != n {
        assert prev.names[i] in ToSet(prev.names);
        var k :| 0 <= k < |init| && init[k] == prev.names[i];
        assert names[k] == prev.names[i];
      }
    }

    /** The scan of `d`, in the order `sorted(os.listdir(d))` gives. */
    method Scan(d: string) returns (s: Listing)
      requires d in tree
      ensures s == ScanSpec(d, Sort(ListDir(d, admin, indexes)), admin, indexes)
    {
      var names := Sort(ListDir(d, admin, indexes));
      var subdirs: seq<string> := [];
      var order: seq<string> := [];
      var files: map<string, FileRecord> := map[];
      var i := 0;
      while i < |names|
        invariant 0 <= i <= |names|
        invariant Listing(subdirs, order, files) == ScanSpec(d, names[..i], admin, indexes)
      {
        var f := names[i];
        var thisname := Join(d, f);
        assert names[..i + 1][..i] == names[..i];
        if IsDir(d, f, admin) {
          if f !in DirsToSkip {
            subdirs := subdirs + [thisname];
          }
        } else {
          if f in FilesToSkip {
          } else if PathExists(d, f, admin, indexes) {
            order := order + [f];
            files := files[f := Scanned(f, thisname, stats[thisname])];
          }
        }
        i := i + 1;
      }
      assert names[..i] == names;
      s := Listing(subdirs, order, files);
    }

    /** The thumbnails that exist on disk for directory `d`, as paths. */
    function ThumbsOnDisk(d: string): set<string>
      reads this
    {
      if d in admin then ThumbPaths(d, admin[d].thumbs) else {}
    }

    /** `process_file` on `rec` in directory `d`, when `d`'s thumbnails are `thumbs`. */
    function StepOn(thumbs: map<string, int>, d: string, rec: FileRecord, metadata: map<string, Json>): Result<Step>
    {
      ProcessFileSpec(rec, ThumbDir(d), Lookup(thumbs, rec.filename + ".png"), metadata, Lookup(quicklook, rec.absFilename))
    }

    /** The thumbnails after that step: a thumbnailer call that writes an artifact replaces the file's `.png`. */
    function ThumbsAfter(thumbs: map<string, int>, rec: FileRecord, step: Result<Step>): map<string, int>
    {
      if step.Ok? && step.value.ranGenerator && rec.absFilename in quicklook
      then thumbs[rec.filename + ".png" := quicklook[rec.absFilename]]
      else thumbs
    }

    /**
     * `process_file` on the record `rec` of directory `d`: the decision is
     * `ProcessFileSpec` on the cached thumbnail's mtime and the oracle's
     * artifact; only a thumbnailer call that produces an artifact changes the
     * filesystem, and only at that file's thumbnail.
     */
    method ProcessFile(d: string, thumbDir: string, rec: FileRecord, metadata: map<string, Json>)
      returns (res: Result<FileRecord>)
      requires d in admin && thumbDir == ThumbDir(d)
      modifies this
      ensures var step := StepOn(old(admin)[d].thumbs, d, rec, metadata);
        && admin == old(admin)[d := old(admin)[d].(thumbs := ThumbsAfter(old(admin)[d].thumbs, rec, step))]
        && res == if step.Err? then Err(step.error) else Ok(step.value.record)
      ensures indexes == old(indexes) && trace == old(trace)
    {
      var needToWriteThumb := false;
      var png := rec.filename + ".png";
      var thumbname := ThumbPath(thumbDir, rec.filename);
      var filedata := rec.(thumbname := Some(thumbname));
      if png in admin[d].thumbs {
        var mtime := admin[d].thumbs[png];
        if mtime < filedata.statMtime {
          needToWriteThumb := true;
        } else {
          filedata := filedata.(thumb := Some(ThumbInfo(true, mtime)));
        }
      } else {
        var retry := PriorRequestsRetry(filedata.filename, metadata);
        if retry.Err? {
          return Err(retry.error);
        }
        needToWriteThumb := retry.value;
      }
      if needToWriteThumb {
        // the thumbnailer runs on the file; its exit status is not looked at
        if filedata.absFilename in quicklook {
          admin := admin[d := admin[d].(thumbs := admin[d].thumbs[png := quicklook[filedata.absFilename]])];
        }
        filedata := filedata.(generated := true);
        if png in admin[d].thumbs {
          filedata := filedata.(thumb := Some(ThumbInfo(true, admin[d].thumbs[png])));
        } else {
          filedata := filedata.(thumb := Some(ThumbInfo(false, 0)));
        }
      }
      res := Ok(filedata);
    }

    /** `write_metadata`: replaces the whole of `d`'s `data.json`. */
    method WriteMetadata(d: string, subdirs: seq<string>, files: map<string, FileRecord>)
      requires d in admin
      modifies this
      ensures admin == old(admin)[d := old(admin)[d].(data := Saved(Snapshot(subdirs, files)))]
      ensures indexes == old(indexes) && trace == old(trace) + [SnapshotWritten(d)]
    {
      admin := admin[d := admin[d].(data := Saved(Snapshot(subdirs, files)))];
      trace := trace + [SnapshotWritten(d)];
    }

    /**
     * `process_metadata`: decides whether `d` changed since its snapshot and,
     * exactly then, replaces the snapshot with the current `{dirs, files}`.
     */
    method ProcessMetadata(d: string, metadata: Snapshot, subdirs: seq<string>, names: seq<string>,
                           files: map<string, FileRecord>) returns (changed: bool)
      requires d in admin && ToSet(names) == files.Keys
      modifies this
      ensures changed == Changed(metadata, subdirs, names, files)
      ensures admin == if changed then old(admin)[d := old(admin)[d].(data := Saved(Snapshot(subdirs, files)))]
                       else old(admin)
      ensures indexes == old(indexes)
      ensures trace == old(trace) + (if changed then [SnapshotWritten(d)] else [])
    {
      changed := (|metadata.files| == 0 && |metadata.dirs| == 0)
                 || DirChanges(metadata.dirs, subdirs)
                 || FileChanges(metadata.files, names, files);
      if changed {
        WriteMetadata(d, subdirs, files);
      }
    }

    /** `write_index`: replaces `d`'s `bview.html` by its rows, reading which thumbnails exist now. */
    method WriteIndex(d: string, subdirs: seq<string>, names: seq<string>, files: map<string, FileRecord>,
                      parentLink: bool)
      requires ToSet(names) <= files.Keys
      modifies this
      ensures indexes == old(indexes)[d := IndexRows(d, subdirs, names, files, old(ThumbsOnDisk(d)), parentLink)]
      ensures admin == old(admin) && trace == old(trace) + [IndexWritten(d, parentLink)]
    {
      var onDisk := ThumbsOnDisk(d);
      var head: seq<Row> := if parentLink then [ParentRow(d)] else [];
      var folders: seq<Row> := [];
      var i := 0;
      while i < |subdirs|
        invariant 0 <= i <= |subdirs|
        invariant |folders| == i && forall k :: 0 <= k < i ==> folders[k] == FolderRow(subdirs[k])
      {
        folders := folders + [FolderRow(subdirs[i])];
        i := i + 1;
      }
      assert folders == FolderRows(subdirs);
      var fileRows: seq<Row> := [];
      var j := 0;
      while j < |names|
        invariant 0 <= j <= |names|
        invariant |fileRows| == j
        invariant forall k :: 0 <= k < j ==> names[k] in files && fileRows[k] == FileRow(names[k], files[names[k]], onDisk)
      {
        assert names[j] in ToSet(names);
        fileRows := fileRows + [FileRow(names[j], files[names[j]], onDisk)];
        j := j + 1;
      }
      assert fileRows == FileRows(names, files, onDisk);
      indexes := indexes[d := head + (folders + fileRows)];
      trace := trace + [IndexWritten(d, parentLink)];
    }

    /** The user directories strictly inside `d`; it shrinks at every step of the recursion. */
    ghost function Beneath(d: string): set<string>
    {
      set p | p in tree && StrictlyWithin(p, d)
    }

    lemma BeneathShrinks(c: string, d: string)
      requires c in tree && StrictlyWithin(c, d)
      ensures Beneath(c) < Beneath(d)
    {
      forall p | p in Beneath(c) ensures p in Beneath(d) {
        WithinChild(p, c, d);
      }
      assert c in Beneath(d) && c !in Beneath(c);
    }

    /** A listing of `d` repeats no name. */
    lemma ListDirDistinct(d: string, a: map<string, AdminDir>, ix: map<string, seq<Row>>)
      requires Valid() && d in tree
      ensures Distinct(ListDir(d, a, ix))
    {
      var l := ListDir(d, a, ix);
      forall i, j | 0 <= i < j < |l| ensures l[i] != l[j] {
        if j >= |tree[d]| {
          assert l[j] == MetadataDirname || l[j] == HtmlFilename;
          if i < |tree[d]| {
            assert l[i] in tree[d];
          }
        }
      }
    }

    /** The subdirectories a scan of `d` returns are user directories that are entries of `d`. */
    lemma ScannedSubdirsAreBeneath(d: string, names: seq<string>, a: map<string, AdminDir>, ix: map<string, seq<Row>>)
      requires forall n :: n in names ==> '/' !in n
      ensures forall c :: c in ScanSpec(d, names, a, ix).subdirs ==> c in tree && ChildOf(c, d)
    {
      ScanClassifies(d, names, a, ix);
      var s := ScanSpec(d, names, a, ix);
      forall c | c in s.subdirs ensures c in tree && ChildOf(c, d) {
        var i :| 0 <= i < |s.subdirs| && s.subdirs[i] == c;
        var n :| n in names && c == Join(d, n);
        assert IsDir(d, n, a) && n !in DirsToSkip;
        JoinIsChild(d, n);
      }
    }

    /** No name `os.listdir` returns holds a `/`. */
    lemma ListDirNames(d: string, a: map<string, AdminDir>, ix: map<string, seq<Row>>)
      requires Valid() && d in tree
      ensures forall n :: n in Sort(ListDir(d, a, ix)) ==> '/' !in n
    {
      var names := ListDir(d, a, ix);
      assert '/' !in MetadataDirname && '/' !in HtmlFilename;
      forall n | n in names ensures '/' !in n {
        assert n in tree[d] || n in [MetadataDirname, HtmlFilename];
      }
      SortPermutes(names);
      forall n | n in Sort(names) ensures '/' !in n {
        assert n in multiset(names);
      }
    }

    /** What the walker relies on about the scan of `d`: both lists come out sorted and without repeats, the subdirectories are user directories inside `d`, and each file is keyed by its name. */
    lemma ScanOfListing(d: string, a: map<string, AdminDir>, ix: map<string, seq<Row>>)
      requires Valid() && d in tree
      ensures var s := ScanSpec(d, Sort(ListDir(d, a, ix)), a, ix);
        && Sort(s.subdirs) == s.subdirs && Distinct(s.subdirs) && Sort(s.names) == s.names && Distinct(s.names)
        && ToSet(s.names) == s.files.Keys
        && (forall c :: c in s.subdirs ==> c in tree && ChildOf(c, d))
        && (forall f :: f in s.files ==> s.files[f].filename == f)
    {
      var listing := Sort(ListDir(d, a, ix));
      ListDirDistinct(d, a, ix);
      SortSorts(ListDir(d, a, ix));
      SortKeepsDistinct(ListDir(d, a, ix));
      ScanKeepsOrder(d, listing, a, ix);
      ScanClassifies(d, listing, a, ix);
      ListDirNames(d, a, ix);
      ScannedSubdirsAreBeneath(d, listing, a, ix);
      var s := ScanSpec(d, listing, a, ix);
      SortOfSorted(s.subdirs);
      SortOfSorted(s.names);
    }

    /**
     * `process_dir` on `d` as a function of the `.bview/` folders `a` and
     * the indexes `ix` it starts from: an empty directory is left alone, one
     * whose only entry is `.bview` loses it, and any other is processed by
     * `process_dir_work`.
     */
    ghost function Walk(d: string, topdir: bool, a: map<string, AdminDir>, ix: map<string, seq<Row>>): WalkResult
      requires Valid() && d in tree
      decreases Beneath(d), 3
    {
      var contents := ListDir(d, a, ix);
      if contents == [] then WalkResult(Completed, a, ix)
      else if contents == [MetadataDirname] then WalkResult(Completed, a - {d}, ix)
      else WorkSpec(d, topdir, a, ix)
    }

    /** `process_dir_work` on `d`: the scan of the sorted listing, `.bview/` made if missing, then `WalkWork`. */
    ghost function WorkSpec(d: string, topdir: bool, a: map<string, AdminDir>, ix: map<string, seq<Row>>): WalkResult
      requires Valid() && d in tree
      decreases Beneath(d), 2
    {
      ScanOfListing(d, a, ix);
      var s := ScanSpec(d, Sort(ListDir(d, a, ix)), a, ix);
      WalkWork(d, s, topdir, if d in a then a else a[d := NewAdminDir], ix)
    }

    /**
     * The rest of `process_dir_work` once the scan `s` is known and `.bview/`
     * exists: the stored snapshot is read, the sorted subdirectories are
     * walked, and unless one of them raised, `d`'s own files are processed
     * and its snapshot and index decided.
     */
    ghost function WalkWork(d: string, s: Listing, topdir: bool, a: map<string, AdminDir>, ix: map<string, seq<Row>>): WalkResult
      requires Valid() && d in a
      requires Sort(s.subdirs) == s.subdirs && forall c :: c in s.subdirs ==> c in tree && ChildOf(c, d)
      requires ToSet(s.names) == s.files.Keys
      decreases Beneath(d), 1
    {
      var metadata := ReadMetadata(a[d].data);
      var r := WalkSubdirs(d, s.subdirs, |s.subdirs|, a, ix);
      if r.status.Raised? then r else FinishSpec(d, s, metadata, a[d], topdir, r.admin, r.indexes)
    }

    /**
     * The loop over the subdirectories of `d` up to the `k`-th of `subs`, each
     * walked as a non-top directory, stopped by the first that raises.
     */
    ghost function WalkSubdirs(d: string, subs: seq<string>, k: nat, a: map<string, AdminDir>, ix: map<string, seq<Row>>): WalkResult
      requires Valid() && k <= |subs| && forall c :: c in subs ==> c in tree && ChildOf(c, d)
      decreases Beneath(d), 0, k
    {
      if k == 0 then WalkResult(Completed, a, ix)
      else
        var prev := WalkSubdirs(d, subs, k - 1, a, ix);
        var c := subs[k - 1];
        if prev.status.Raised? then prev
        else
          assert c in subs && ChildOf(c, d);
          BeneathShrinks(c, d);
          Walk(c, false, prev.admin, prev.indexes)
    }

    /**
     * `d`'s own part of `process_dir_work` once its subdirectories completed,
     * `own` being `d`'s `.bview/` folder: the files are processed, then, unless
     * one raised, the snapshot and the index are rewritten exactly when the
     * change detector says so; `thumbs/` exists afterwards when there is a file.
     */
    ghost function FinishSpec(d: string, s: Listing, metadata: Snapshot, own: AdminDir, topdir: bool,
                              a: map<string, AdminDir>, ix: map<string, seq<Row>>): WalkResult
      requires ToSet(s.names) == s.files.Keys
    {
      var run := RunFiles(d, s.names, s.files, DocJson(metadata), own.thumbs);
      var hasThumbs := own.hasThumbs || s.names != [];
      if run.failure.Some? then
        WalkResult(Raised(run.failure.value), a[d := AdminDir(own.data, hasThumbs, run.thumbs)], ix)
      else
        var changed := Changed(metadata, s.subdirs, s.names, run.files);
        WalkResult(Completed,
                a[d := AdminDir(if changed then Saved(Snapshot(s.subdirs, run.files)) else own.data, hasThumbs, run.thumbs)],
                if changed then ix[d := IndexRows(d, s.subdirs, s.names, run.files, ThumbPaths(d, run.thumbs), !topdir)]
                else ix)
    }

    /** Once a subdirectory has raised, the ones after it are not walked. */
    lemma {:induction false} WalkSubdirsStops(d: string, subs: seq<string>, k: nat, n: nat,
                                              a: map<string, AdminDir>, ix: map<string, seq<Row>>)
      requires Valid() && k <= n <= |subs| && forall c :: c in subs ==> c in tree && ChildOf(c, d)
      ensures WalkSubdirs(d, subs, k, a, ix).status.Raised? ==> WalkSubdirs(d, subs, n, a, ix) == WalkSubdirs(d, subs, k, a, ix)
      decreases n - k
    {
      if k < n {
        WalkSubdirsStops(d, subs, k, n - 1, a, ix);
      }
    }

    /**
     * What `process_dir_work` on `d` leaves when it completes, given the scan
     * `s`, the `.bview/` folder `before` it worked from, and the logs `segs`
     * of its subdirectories: every subdirectory was visited in order and none
     * raised; then `thumbs/` (only when there is a file) and every file, each
     * on the thumbnails `d` had before; the snapshot compared with is the
     * stored one or the empty document; and the snapshot and the index are
     * rewritten exactly when the directory changed, the index with a parent
     * row exactly when `d` is not the top directory.
     */
    ghost predicate Completes(d: string, topdir: bool, s: Listing, before: AdminDir,
                              i0: map<string, seq<Row>>, t0: seq<Event>,
                              a1: map<string, AdminDir>, i1: map<string, seq<Row>>, t1: seq<Event>,
                              segs: seq<seq<Event>>)
    {
      && ToSet(s.names) == s.files.Keys
      && SubdirVisits(s.subdirs, segs, Completed)
      && var prior := ReadMetadata(before.data);
         var run := RunFiles(d, s.names, s.files, DocJson(prior), before.thumbs);
         var changed := Changed(prior, s.subdirs, s.names, run.files);
         && run.failure.None?
         && t1 == t0 + [Began(d)] + Flatten(segs) + OwnEvents(d, s.names, changed, !topdir)
         && d in a1
         && a1[d] == AdminDir(if changed then Saved(Snapshot(s.subdirs, run.files)) else before.data,
                              before.hasThumbs || s.names != [], run.thumbs)
         && (changed ==> d in i1 && i1[d] == IndexRows(d, s.subdirs, s.names, run.files, ThumbPaths(d, run.thumbs), !topdir))
         && (!changed ==> (d in i1 <==> d in i0) && (d in i1 ==> i1[d] == i0[d]))
    }

    /**
     * What `process_dir_work` on `d` leaves when `error` escapes it: the
     * snapshot and the index of `d` are as they were, and the exception is
     * that of the first subdirectory that raised, or else, every subdirectory
     * having completed, that of the first file of `d` whose `process_file`
     * raised.
     */
    ghost predicate Stops(d: string, s: Listing, before: AdminDir,
                          i0: map<string, seq<Row>>, t0: seq<Event>,
                          a1: map<string, AdminDir>, i1: map<string, seq<Row>>, t1: seq<Event>,
                          segs: seq<seq<Event>>, error: PyError)
    {
      && ToSet(s.names) == s.files.Keys
      && d in a1 && a1[d].data == before.data
      && (d in i1 <==> d in i0) && (d in i1 ==> i1[d] == i0[d])
      && ((SubdirVisits(s.subdirs, segs, Raised(error)) && t1 == t0 + [Began(d)] + Flatten(segs))
          || (&& SubdirVisits(s.subdirs, segs, Completed)
              && RunFiles(d, s.names, s.files, DocJson(ReadMetadata(before.data)), before.thumbs).failure == Some(error)
              && t1 == t0 + [Began(d)] + Flatten(segs) + ThumbsEvents(d, s.names) + [Failed(d, error)]))
    }

    /**
     * `process_dir`: an empty directory is left alone; one whose only entry is
     * `.bview` loses it; any other is processed by `process_dir_work`, with
     * the outcome `Completes` or `Stops` describes.  Either way only `d` and
     * what lies inside it is touched, the log says whether and where an
     * exception escaped, and every index written has a parent link except
     * the top directory's own.  The result and everything bview owns
     * afterwards, in `d` and in every directory inside it, are those of the
     * reference walk `Walk`.
     */
    method ProcessDir(d: string, topdir: bool) returns (status: Status, ghost segs: seq<seq<Event>>)
      requires Valid() && d in tree
      modifies this
      decreases Beneath(d), 4
      ensures WalkResult(status, admin, indexes) == Walk(d, topdir, old(admin), old(indexes))
      ensures Confined(d, topdir, old(admin), old(indexes), old(trace), admin, indexes, trace, status)
      ensures old(ListDir(d, admin, indexes)) == [] ==>
        status == Completed && admin == old(admin) && indexes == old(indexes) && trace == old(trace)
      ensures old(ListDir(d, admin, indexes)) == [MetadataDirname] ==>
        && status == Completed && admin == old(admin) - {d} && indexes == old(indexes)
        && trace == old(trace) + [Pruned(d)]
      ensures old(ListDir(d, admin, indexes)) != [] && old(ListDir(d, admin, indexes)) != [MetadataDirname] ==>
        && |trace| > |old(trace)| && trace[|old(trace)|] == Began(d)
        && var s := old(ScanSpec(d, Sort(ListDir(d, admin, indexes)), admin, indexes));
           var before := if d in old(admin) then old(admin)[d] else NewAdminDir;
           && (status.Completed? ==> Completes(d, topdir, s, before, old(indexes), old(trace), admin, indexes, trace, segs))
           && (status.Raised? ==> Stops(d, s, before, old(indexes), old(trace), admin, indexes, trace, segs, status.error))
    {
      var contents := ListDir(d, admin, indexes);
      if |contents| == 0 {
        status, segs := Completed, [];
      } else if |contents| == 1 && contents[0] == MetadataDirname {
        assert contents == [MetadataDirname];
        // the whole `.bview/` folder is removed
        admin := admin - {d};
        trace := trace + [Pruned(d)];
        status, segs := Completed, [];
      } else {
        status, segs := ProcessDirWork(d, topdir);
      }
    }

    /**
     * `process_dir_work`: the scan of `d`, `.bview/` made if missing, then
     * the work `WorkOnListing` describes; the end state is that of `WorkSpec`.
     */
    method ProcessDirWork(d: string, topdir: bool) returns (status: Status, ghost segs: seq<seq<Event>>)
      requires Valid() && d in tree
      modifies this
      decreases Beneath(d), 3
      ensures WalkResult(status, admin, indexes) == WorkSpec(d, topdir, old(admin), old(indexes))
      ensures Confined(d, topdir, old(admin), old(indexes), old(trace), admin, indexes, trace, status)
      ensures |trace| > |old(trace)| && trace[|old(trace)|] == Began(d)
      ensures var s := old(ScanSpec(d, Sort(ListDir(d, admin, indexes)), admin, indexes));
        var before := if d in old(admin) then old(admin)[d] else NewAdminDir;
        && (status.Completed? ==> Completes(d, topdir, s, before, old(indexes), old(trace), admin, indexes, trace, segs))
        && (status.Raised? ==> Stops(d, s, before, old(indexes), old(trace), admin, indexes, trace, segs, status.error))
    {
      var s := Scan(d);
      ScanOfListing(d, admin, indexes);
      ghost var before := if d in admin then admin[d] else NewAdminDir;
      ghost var admin0 := admin;
      if d !in admin {
        // `.bview/` is created
        admin := admin[d := NewAdminDir];
      }
      assert admin == admin0[d := before];
      UntouchedUpdate(admin0, d, before);
      ghost var admin1 := admin;
      status, segs := WorkOnListing(d, s, topdir);
      UntouchedTrans(admin0, admin1, admin, d);
    }

    /**
     * `process_dir_work` from the point where `d`'s scan `s` is known and
     * `.bview/` exists: the subdirectories first, each by `process_dir` with
     * `topdir` false, then the files, the change decision, the snapshot and
     * the index; the end state is that of `WalkWork`.
     */
    method WorkOnListing(d: string, s: Listing, topdir: bool) returns (status: Status, ghost segs: seq<seq<Event>>)
      requires Valid() && d in tree && d in admin
      requires Sort(s.subdirs) == s.subdirs && Distinct(s.subdirs)
      requires forall c :: c in s.subdirs ==> c in tree && ChildOf(c, d)
      requires ToSet(s.names) == s.files.Keys && Distinct(s.names) && Sort(s.names) == s.names
      modifies this
      decreases Beneath(d), 2
      ensures WalkResult(status, admin, indexes) == WalkWork(d, s, topdir, old(admin), old(indexes))
      ensures Confined(d, topdir, old(admin), old(indexes), old(trace), admin, indexes, trace, status)
      ensures |trace| > |old(trace)| && trace[|old(trace)|] == Began(d)
      ensures status.Completed? ==> Completes(d, topdir, s, old(admin)[d], old(indexes), old(trace), admin, indexes, trace, segs)
      ensures status.Raised? ==> Stops(d, s, old(admin)[d], old(indexes), old(trace), admin, indexes, trace, segs, status.error)
    {
      trace := trace + [Began(d)];
      var metadata := ReadMetadata(admin[d].data);
      status, segs := ProcessSubdirs(d, Sort(s.subdirs));
      if status.Raised? {
        SubdirsRaised(d, topdir, s, old(admin), old(indexes), old(trace), admin, indexes, trace, segs, status);
      } else {
        ghost var admin2, indexes2, trace2 := admin, indexes, trace;
        ghost var changed, run;
        status, changed, run := FinishDir(d, s, metadata, DocJson(metadata), topdir);
        if run.failure.Some? {
          DirFailed(d, topdir, s, old(admin), old(indexes), old(trace), admin2, indexes2, trace2, segs,
                    admin, trace, run, run.failure.value);
        } else {
          DirFinished(d, topdir, s, old(admin), old(indexes), old(trace), admin2, indexes2, trace2, segs,
                      admin, indexes, trace, status, changed, run);
        }
      }
    }

    /** `process_dir_work` when a subdirectory raised: `d`'s own files are never reached. */
    lemma SubdirsRaised(d: string, topdir: bool, s: Listing,
                        a0: map<string, AdminDir>, i0: map<string, seq<Row>>, t0: seq<Event>,
                        a1: map<string, AdminDir>, i1: map<string, seq<Row>>, t1: seq<Event>,
                        segs: seq<seq<Event>>, status: Status)
      requires d in a0 && ToSet(s.names) == s.files.Keys && status.Raised?
      requires SubdirsDone(d, s.subdirs, a0, i0, t0 + [Began(d)], a1, i1, t1, segs, status)
      ensures Confined(d, topdir, a0, i0, t0, a1, i1, t1, status) && |t1| > |t0| && t1[|t0|] == Began(d)
      ensures Stops(d, s, a0[d], i0, t0, a1, i1, t1, segs, status.error)
    {
      var kids := Flatten(segs);
      assert t1 == t0 + [Began(d)] + kids + [];
      forall k | 0 <= k < |kids|
        ensures StrictlyWithin(kids[k].dir, d) && (kids[k].IndexWritten? ==> kids[k].parentLink)
      {
        assert kids[k] == t1[|t0| + 1 + k];
      }
      assert (t0 + [Began(d)]) + kids == t1;
      assert t1[|t0 + [Began(d)]|..] == kids + [];
      DirLog(t0, d, topdir, kids, [], status);
      ParentRowsOwn(i0, i1, i1, d, topdir);
    }

    /** `process_dir_work` once the subdirectories and then all the files completed. */
    lemma DirFinished(d: string, topdir: bool, s: Listing,
                      a0: map<string, AdminDir>, i0: map<string, seq<Row>>, t0: seq<Event>,
                      a1: map<string, AdminDir>, i1: map<string, seq<Row>>, t1: seq<Event>, segs: seq<seq<Event>>,
                      a2: map<string, AdminDir>, i2: map<string, seq<Row>>, t2: seq<Event>,
                      status: Status, changed: bool, run: FilesRun)
      requires d in a0 && ToSet(s.names) == s.files.Keys
      requires SubdirsDone(d, s.subdirs, a0, i0, t0 + [Began(d)], a1, i1, t1, segs, Completed)
      requires d in a1 && run == RunFiles(d, s.names, s.files, DocJson(ReadMetadata(a0[d].data)), a1[d].thumbs)
      requires run.failure.None? && status == Completed
      requires changed == Changed(ReadMetadata(a0[d].data), s.subdirs, s.names, run.files)
      requires a2 == a1[d := AdminDir(if changed then Saved(Snapshot(s.subdirs, run.files)) else a1[d].data,
                                      a1[d].hasThumbs || s.names != [], run.thumbs)]
      requires i2 == if changed
                     then i1[d := IndexRows(d, s.subdirs, s.names, run.files, ThumbPaths(d, run.thumbs), !topdir)]
                     else i1
      requires t2 == t1 + OwnEvents(d, s.names, changed, !topdir)
      ensures Confined(d, topdir, a0, i0, t0, a2, i2, t2, status) && |t2| > |t0| && t2[|t0|] == Began(d)
      ensures Completes(d, topdir, s, a0[d], i0, t0, a2, i2, t2, segs)
      ensures WalkResult(status, a2, i2) == FinishSpec(d, s, ReadMetadata(a0[d].data), a0[d], topdir, a1, i1)
    {
      if changed {
        IndexLayout(d, s.subdirs, s.names, run.files, ThumbPaths(d, run.thumbs), !topdir);
      }
      OwnStep(d, topdir, s.subdirs, a0, i0, t0, a1, i1, t1, segs, a2, i2, t2, OwnEvents(d, s.names, changed, !topdir), status);
    }

    /** `process_dir_work` once the subdirectories completed and then a file raised `error`. */
    lemma DirFailed(d: string, topdir: bool, s: Listing,
                    a0: map<string, AdminDir>, i0: map<string, seq<Row>>, t0: seq<Event>,
                    a1: map<string, AdminDir>, i1: map<string, seq<Row>>, t1: seq<Event>, segs: seq<seq<Event>>,
                    a2: map<string, AdminDir>, t2: seq<Event>, run: FilesRun, error: PyError)
      requires d in a0 && ToSet(s.names) == s.files.Keys
      requires SubdirsDone(d, s.subdirs, a0, i0, t0 + [Began(d)], a1, i1, t1, segs, Completed)
      requires d in a1 && run == RunFiles(d, s.names, s.files, DocJson(ReadMetadata(a0[d].data)), a1[d].thumbs)
      requires run.failure == Some(error)
      requires a2 == a1[d := AdminDir(a1[d].data, a1[d].hasThumbs || s.names != [], run.thumbs)]
      requires t2 == t1 + ThumbsEvents(d, s.names) + [Failed(d, error)]
      ensures Confined(d, topdir, a0, i0, t0, a2, i1, t2, Raised(error)) && |t2| > |t0| && t2[|t0|] == Began(d)
      ensures Stops(d, s, a0[d], i0, t0, a2, i1, t2, segs, error)
      ensures WalkResult(Raised(error), a2, i1) == FinishSpec(d, s, ReadMetadata(a0[d].data), a0[d], topdir, a1, i1)
    {
      var own := ThumbsEvents(d, s.names) + [Failed(d, error)];
      assert own[..|own| - 1] == ThumbsEvents(d, s.names);
      OwnStep(d, topdir, s.subdirs, a0, i0, t0, a1, i1, t1, segs, a2, i1, t2, own, Raised(error));
    }

    /**
     * The rest of `process_dir_work` once the subdirectories are done: the
     * files, then the change decision, then the snapshot and the index when
     * it says changed.  An exception from a file is logged and leaves the
     * snapshot and the index as they were.
     */
    method FinishDir(d: string, s: Listing, metadata: Snapshot, doc: map<string, Json>, topdir: bool)
      returns (status: Status, ghost changed: bool, ghost run: FilesRun)
      requires d in admin
      requires ToSet(s.names) == s.files.Keys && Distinct(s.names) && Sort(s.names) == s.names
      modifies this
      ensures run == RunFiles(d, s.names, s.files, doc, old(admin)[d].thumbs)
      ensures status == if run.failure.Some? then Raised(run.failure.value) else Completed
      ensures changed == (run.failure.None? && Changed(metadata, s.subdirs, s.names, run.files))
      ensures admin == old(admin)[d := AdminDir(if changed then Saved(Snapshot(s.subdirs, run.files)) else old(admin)[d].data,
                                                old(admin)[d].hasThumbs || s.names != [], run.thumbs)]
      ensures indexes == if changed
                         then old(indexes)[d := IndexRows(d, s.subdirs, s.names, run.files, ThumbPaths(d, run.thumbs), !topdir)]
                         else old(indexes)
      ensures run.failure.Some? ==> trace == old(trace) + ThumbsEvents(d, s.names) + [Failed(d, run.failure.value)]
      ensures run.failure.None? ==> trace == old(trace) + OwnEvents(d, s.names, changed, !topdir)
    {
      var processed;
      processed, run := ProcessDirFiles(d, s, doc);
      if processed.Err? {
        trace := trace + [Failed(d, processed.error)];
        status, changed := Raised(processed.error), false;
      } else {
        ghost var admin1, trace1 := admin, trace;
        changed := RecordDir(d, s, metadata, processed.value, topdir);
        if changed {
          UpdateTwice(old(admin), d, admin1[d], admin[d]);
        }
        AppendAssoc(old(trace), trace1[|old(trace)|..], trace[|trace1|..]);
        status := Completed;
      }
    }

    /**
     * The end of `process_dir_work` on the processed `files`: the change
     * decision, then the snapshot and the index exactly when it says changed.
     */
    method RecordDir(d: string, s: Listing, metadata: Snapshot, files: map<string, FileRecord>, topdir: bool)
      returns (changed: bool)
      requires d in admin && ToSet(s.names) == files.Keys
      modifies this
      ensures changed == Changed(metadata, s.subdirs, s.names, files)
      ensures admin == if changed then old(admin)[d := old(admin)[d].(data := Saved(Snapshot(s.subdirs, files)))]
                       else old(admin)
      ensures indexes == if changed then old(indexes)[d := IndexRows(d, s.subdirs, s.names, files, old(ThumbsOnDisk(d)), !topdir)]
                         else old(indexes)
      ensures trace == old(trace) + (if changed then [SnapshotWritten(d), IndexWritten(d, !topdir)] else [])
    {
      var needToWriteIndex := ProcessMetadata(d, metadata, s.subdirs, s.names, files);
      changed := needToWriteIndex;
      if needToWriteIndex {
        WriteIndex(d, s.subdirs, s.names, files, !topdir);
      }
    }

    /**
     * The file half of `process_dir_work`: `thumbs/` is made when there is a
     * file, then the files are processed in sorted order.
     */
    method ProcessDirFiles(d: string, s: Listing, doc: map<string, Json>)
      returns (res: Result<map<string, FileRecord>>, ghost run: FilesRun)
      requires d in admin
      requires ToSet(s.names) == s.files.Keys && Distinct(s.names) && Sort(s.names) == s.names
      modifies this
      ensures run == RunFiles(d, s.names, s.files, doc, old(admin)[d].thumbs)
      ensures
        && admin == old(admin)[d := AdminDir(old(admin)[d].data, old(admin)[d].hasThumbs || s.names != [], run.thumbs)]
        && res == if run.failure.Some? then Err(run.failure.value) else Ok(run.files)
      ensures indexes == old(indexes)
      ensures trace == old(trace) + (if s.names != [] then [ThumbsReady(d)] else [])
    {
      var files := s.files;
      if |files| > 0 {
        assert s.names != [] by {
          var f :| f in files;
          assert f in ToSet(s.names);
        }
        ghost var before := admin[d];
        if !admin[d].hasThumbs {
          // `.bview/thumbs/` is created
          admin := admin[d := admin[d].(hasThumbs := true)];
        }
        ghost var made := admin[d];
        assert made == AdminDir(before.data, true, before.thumbs);
        trace := trace + [ThumbsReady(d)];
        res := ProcessFiles(d, Sort(s.names), files, doc);
        run := RunFiles(d, s.names, s.files, doc, before.thumbs);
        UpdateTwice(old(admin), d, made, admin[d]);
      } else {
        DistinctSize(s.names);
        assert s.names == [];
        res := Ok(files);
        run := RunFiles(d, s.names, s.files, doc, admin[d].thumbs);
      }
    }

    /**
     * The loop over the sorted subdirectories of `d`, stopped by an
     * exception: each subdirectory in turn is processed with `topdir` false
     * and logs a segment that matches its listing, until one raises.  Nothing
     * outside `d` and neither `d`'s `.bview/` nor its index is touched, and
     * every index rewritten inside `d` starts with the parent row.  The end
     * state is that of `WalkSubdirs`, each subdirectory walked by `Walk`.
     */
    method ProcessSubdirs(d: string, subs: seq<string>) returns (status: Status, ghost segs: seq<seq<Event>>)
      requires Valid() && d in tree
      requires Distinct(subs) && forall c :: c in subs ==> c in tree && ChildOf(c, d)
      modifies this
      decreases Beneath(d), 1
      ensures WalkResult(status, admin, indexes) == WalkSubdirs(d, subs, |subs|, old(admin), old(indexes))
      ensures SubdirsDone(d, subs, old(admin), old(indexes), old(trace), admin, indexes, trace, segs, status)
      ensures forall i :: 0 <= i < |segs| ==> VisitMatches(subs[i], old(ListDir(subs[i], admin, indexes)), segs[i])
      ensures forall i :: 0 <= i < |segs| && old(ListDir(subs[i], admin, indexes)) == [MetadataDirname] ==> subs[i] !in admin
    {
      ghost var a0, i0, t0 := admin, indexes, trace;
      ghost var listings := seq(|subs|, j requires 0 <= j < |subs| => ListDir(subs[j], a0, i0));
      var i := 0;
      status := Completed;
      segs := [];
      while i < |subs| && status.Completed?
        invariant 0 <= i <= |subs| && |segs| == i
        invariant forall j :: 0 <= j < |subs| ==> listings[j] == ListDir(subs[j], a0, i0)
        invariant LoopState(d, subs, listings, a0, i0, t0, admin, indexes, trace, segs, status)
        invariant WalkResult(status, admin, indexes) == WalkSubdirs(d, subs, i, a0, i0)
      {
        var c := subs[i];
        ghost var admin1, indexes1, trace1 := admin, indexes, trace;
        assert ListDir(c, admin, indexes) == listings[i];
        var st := VisitSubdir(d, c);
        LoopStep(d, subs, listings, a0, i0, t0, admin1, indexes1, trace1, segs,
                 admin, indexes, trace, st);
        segs := segs + [trace[|trace1|..]];
        status := st;
        i := i + 1;
      }
      LoopDone(d, subs, listings, a0, i0, t0, admin, indexes, trace, segs, status);
      WalkSubdirsStops(d, subs, i, |subs|, a0, i0);
    }

    /** What the loop over the subdirectories keeps, once the first `|segs|` have been visited. */
    ghost predicate LoopState(d: string, subs: seq<string>, listings: seq<seq<string>>,
                              a0: map<string, AdminDir>, i0: map<string, seq<Row>>, t0: seq<Event>,
                              a: map<string, AdminDir>, ix: map<string, seq<Row>>, t: seq<Event>,
                              segs: seq<seq<Event>>, status: Status)
    {
      && |segs| <= |subs| == |listings| && (status.Raised? ==> segs != [])
      && SubdirsDone(d, subs[..|segs|], a0, i0, t0, a, ix, t, segs, status)
      && (forall j :: 0 <= j < |segs| ==> VisitMatches(subs[j], listings[j], segs[j]))
      && (forall j :: 0 <= j < |segs| && listings[j] == [MetadataDirname] ==> subs[j] !in a)
      && (forall j :: |segs| <= j < |subs| ==> (subs[j] in a <==> subs[j] in a0) && (subs[j] in ix <==> subs[j] in i0))
    }

    /** The loop one subdirectory further on. */
    lemma LoopStep(d: string, subs: seq<string>, listings: seq<seq<string>>,
                   a0: map<string, AdminDir>, i0: map<string, seq<Row>>, t0: seq<Event>,
                   a1: map<string, AdminDir>, i1: map<string, seq<Row>>, t1: seq<Event>, segs: seq<seq<Event>>,
                   a2: map<string, AdminDir>, i2: map<string, seq<Row>>, t2: seq<Event>, st: Status)
      requires Distinct(subs) && forall c :: c in subs ==> ChildOf(c, d)
      requires LoopState(d, subs, listings, a0, i0, t0, a1, i1, t1, segs, Completed) && |segs| < |subs|
      requires VisitPost(subs[|segs|], listings[|segs|], a1, i1, t1, a2, i2, t2, st)
      ensures LoopState(d, subs, listings, a0, i0, t0, a2, i2, t2, segs + [t2[|t1|..]], st)
    {
      var i := |segs|;
      var c := subs[i];
      var seg := t2[|t1|..];
      assert t2 == t1 + seg;
      assert c in subs;
      ChildStaysWithin(a1, a2, c, d);
      ChildStaysWithin(i1, i2, c, d);
      UntouchedTrans(a0, a1, a2, d);
      UntouchedTrans(i0, i1, i2, d);
      forall j | 0 <= j < |subs| && j != i ensures !Within(subs[j], c) {
        assert subs[j] in subs;
        SiblingsApart(c, subs[j], d);
      }
      LoopStepLog(d, c, t0, t1, t2, st);
      ParentRowsStep(i0, i1, i2, c, d);
      LoopStepSegs(subs, listings, t0, t1, segs, seg, st);
    }

    /** The log of the loop one subdirectory further on. */
    lemma LoopStepLog(d: string, c: string, t0: seq<Event>, t1: seq<Event>, t2: seq<Event>, st: Status)
      requires StrictlyWithin(c, d) && |t0| <= |t1| <= |t2| && t2[..|t1|] == t1
      requires forall k :: |t0| <= k < |t1| ==> StrictlyWithin(t1[k].dir, d) && (t1[k].IndexWritten? ==> t1[k].parentLink)
      requires NoFailure(t1[|t0|..]) && ChildVisit(c, t2[|t1|..]) && Reports(t2[|t1|..], st)
      ensures forall k :: |t0| <= k < |t2| ==> StrictlyWithin(t2[k].dir, d) && (t2[k].IndexWritten? ==> t2[k].parentLink)
      ensures Reports(t2[|t0|..], st)
    {
      var seg := t2[|t1|..];
      forall k | |t0| <= k < |t2|
        ensures StrictlyWithin(t2[k].dir, d) && (t2[k].IndexWritten? ==> t2[k].parentLink)
      {
        if k >= |t1| {
          assert t2[k] == seg[k - |t1|];
          WithinChild(t2[k].dir, c, d);
        } else {
          assert t2[k] == t1[k];
        }
      }
      assert t2[|t0|..] == t1[|t0|..] + seg;
      ReportsAppend(t1[|t0|..], seg, st);
    }

    /** The visited segments one subdirectory further on. */
    lemma LoopStepSegs(subs: seq<string>, listings: seq<seq<string>>, t0: seq<Event>, t1: seq<Event>,
                       segs: seq<seq<Event>>, seg: seq<Event>, st: Status)
      requires |segs| < |subs| == |listings|
      requires t1 == t0 + Flatten(segs) && SubdirVisits(subs[..|segs|], segs, Completed)
      requires forall j :: 0 <= j < |segs| ==> VisitMatches(subs[j], listings[j], segs[j])
      requires ChildVisit(subs[|segs|], seg) && VisitMatches(subs[|segs|], listings[|segs|], seg) && Reports(seg, st)
      ensures t1 + seg == t0 + Flatten(segs + [seg]) && SubdirVisits(subs[..|segs| + 1], segs + [seg], st)
      ensures forall j :: 0 <= j < |segs| + 1 ==> VisitMatches(subs[j], listings[j], (segs + [seg])[j])
    {
      FlattenSnoc(segs, seg);
      AppendAssoc(t0, Flatten(segs), seg);
      SubdirVisitsSnoc(subs, segs, seg, st);
    }

    /** One more visited subdirectory. */
    lemma SubdirVisitsSnoc(subs: seq<string>, segs: seq<seq<Event>>, seg: seq<Event>, st: Status)
      requires |segs| < |subs| && SubdirVisits(subs[..|segs|], segs, Completed)
      requires ChildVisit(subs[|segs|], seg) && Reports(seg, st)
      ensures SubdirVisits(subs[..|segs| + 1], segs + [seg], st)
    {
      var subs1, segs1 := subs[..|segs| + 1], segs + [seg];
      forall i | 0 <= i < |segs1| ensures ChildVisit(subs1[i], segs1[i]) {
        if i < |segs| {
          assert subs1[i] == subs[..|segs|][i] && segs1[i] == segs[i];
        }
      }
      forall i | 0 <= i < |segs1| - 1 ensures NoFailure(segs1[i]) {
        assert segs1[i] == segs[i];
      }
    }

    /** The loop's end: every subdirectory visited, or one raised. */
    lemma LoopDone(d: string, subs: seq<string>, listings: seq<seq<string>>,
                   a0: map<string, AdminDir>, i0: map<string, seq<Row>>, t0: seq<Event>,
                   a: map<string, AdminDir>, ix: map<string, seq<Row>>, t: seq<Event>,
                   segs: seq<seq<Event>>, status: Status)
      requires LoopState(d, subs, listings, a0, i0, t0, a, ix, t, segs, status)
      requires status.Completed? ==> |segs| == |subs|
      ensures SubdirsDone(d, subs, a0, i0, t0, a, ix, t, segs, status)
    {
      var subs1 := subs[..|segs|];
      forall i | 0 <= i < |segs| ensures ChildVisit(subs[i], segs[i]) {
        assert subs1[i] == subs[i];
      }
    }

    /** How the parent sees one subdirectory's visit, given what `os.listdir` returned for it. */
    ghost predicate VisitPost(c: string, contents: seq<string>,
                              a1: map<string, AdminDir>, i1: map<string, seq<Row>>, t1: seq<Event>,
                              a2: map<string, AdminDir>, i2: map<string, seq<Row>>, t2: seq<Event>, status: Status)
    {
      && Untouched(a1, a2, c) && Untouched(i1, i2, c)
      && |t1| <= |t2| && t2[..|t1|] == t1
      && ChildVisit(c, t2[|t1|..]) && VisitMatches(c, contents, t2[|t1|..])
      && Reports(t2[|t1|..], status)
      && (contents == [MetadataDirname] ==> c !in a2)
      && ParentRows(i1, i2, c, false)
    }

    /**
     * One turn of the loop over the subdirectories of `d`: `process_dir(c)`
     * with `topdir` false, as its parent sees it: the end state is that of
     * `Walk` on `c`, and `VisitPost` is what the loop needs of it.
     */
    method VisitSubdir(d: string, c: string) returns (status: Status)
      requires Valid() && c in tree && StrictlyWithin(c, d)
      modifies this
      decreases Beneath(d), 0
      ensures WalkResult(status, admin, indexes) == Walk(c, false, old(admin), old(indexes))
      ensures VisitPost(c, old(ListDir(c, admin, indexes)), old(admin), old(indexes), old(trace), admin, indexes, trace, status)
    {
      BeneathShrinks(c, d);
      ghost var trace0 := trace;
      ghost var grandkids;
      status, grandkids := ProcessDir(c, false);
      VisitStep(c, old(ListDir(c, admin, indexes)), trace0, trace);
    }

    /** One subdirectory's visit read off its log, given what `os.listdir` returned for it. */
    lemma VisitStep(c: string, contents: seq<string>, t1: seq<Event>, t2: seq<Event>)
      requires ExtendsWithin(t1, t2, c) && LinksUp(t1, t2, c, false)
      requires contents == [] ==> t2 == t1
      requires contents == [MetadataDirname] ==> t2 == t1 + [Pruned(c)]
      requires contents != [] && contents != [MetadataDirname] ==> |t2| > |t1| && t2[|t1|] == Began(c)
      ensures ChildVisit(c, t2[|t1|..]) && VisitMatches(c, contents, t2[|t1|..])
    {
      var seg := t2[|t1|..];
      forall k | 0 <= k < |seg| ensures Within(seg[k].dir, c) && (seg[k].IndexWritten? ==> seg[k].parentLink) {
        assert seg[k] == t2[|t1| + k];
      }
    }

    /**
     * The loop over the files run on `order` from thumbnails `thumbs`: the
     * records and thumbnails so far, how many files were done, and the
     * exception that stopped it, if one did.
     */
    function RunFiles(d: string, order: seq<string>, files: map<string, FileRecord>,
                      metadata: map<string, Json>, thumbs: map<string, int>): (r: FilesRun)
      requires ToSet(order) <= files.Keys
      ensures r.files.Keys == files.Keys && r.done <= |order|
      ensures r.failure.None? ==> r.done == |order|
    {
      if order == [] then FilesRun(files, thumbs, 0, None)
      else
        var init := order[..|order| - 1];
        assert ToSet(init) <= ToSet(order);
        var p := RunFiles(d, init, files, metadata, thumbs);
        var f := order[|order| - 1];
        assert f in ToSet(order);
        if p.failure.Some? then p
        else
          var step := StepOn(p.thumbs, d, p.files[f], metadata);
          if step.Err? then p.(failure := Some(step.error))
          else FilesRun(p.files[f := step.value.record], ThumbsAfter(p.thumbs, p.files[f], step), p.done + 1, None)
    }

    /**
     * With the files in `order` distinct, each one is processed on the
     * thumbnails as they were before the loop, since processing a file only
     * touches that file's own `.png`: the first `done` files hold their
     * `process_file` records, the rest are as scanned, and the loop stops
     * exactly at the first file whose `process_file` raises.
     */
    ghost predicate Outcome(d: string, order: seq<string>, files: map<string, FileRecord>,
                            metadata: map<string, Json>, thumbs: map<string, int>, r: FilesRun)
      requires ToSet(order) <= files.Keys && r.done <= |order|
    {
      && (forall f :: f in files && f !in order[..r.done] ==>
            f in r.files && r.files[f] == files[f] && Lookup(r.thumbs, f + ".png") == Lookup(thumbs, f + ".png"))
      && (forall f :: f in order[..r.done] ==>
            f in files && f in r.files
            && StepOn(thumbs, d, files[f], metadata).Ok?
            && r.files[f] == StepOn(thumbs, d, files[f], metadata).value.record)
      && (r.failure.Some? ==>
            r.done < |order| && order[r.done] in files
            && StepOn(thumbs, d, files[order[r.done]], metadata) == Err(r.failure.value))
    }

    lemma {:induction false} RunFilesOutcome(d: string, order: seq<string>, files: map<string, FileRecord>,
                                             metadata: map<string, Json>, thumbs: map<string, int>)
      requires Distinct(order) && ToSet(order) <= files.Keys
      requires forall f :: f in files ==> files[f].filename == f
      ensures Outcome(d, order, files, metadata, thumbs, RunFiles(d, order, files, metadata, thumbs))
    {
      if order != [] {
        var init := order[..|order| - 1];
        assert ToSet(init) <= ToSet(order);
        assert Distinct(init);
        RunFilesOutcome(d, init, files, metadata, thumbs);
        if RunFiles(d, init, files, metadata, thumbs).failure.Some? {
          OutcomeAfterFailure(d, order, files, metadata, thumbs);
        } else {
          OutcomeAfterStep(d, order, files, metadata, thumbs);
        }
      }
    }

    /** Once a file has raised, the loop's outcome stays as it was. */
    lemma OutcomeAfterFailure(d: string, order: seq<string>, files: map<string, FileRecord>,
                              metadata: map<string, Json>, thumbs: map<string, int>)
      requires order != [] && ToSet(order) <= files.Keys && ToSet(order[..|order| - 1]) <= files.Keys
      requires var p := RunFiles(d, order[..|order| - 1], files, metadata, thumbs);
        p.failure.Some? && Outcome(d, order[..|order| - 1], files, metadata, thumbs, p)
      ensures Outcome(d, order, files, metadata, thumbs, RunFiles(d, order, files, metadata, thumbs))
    {
      var init := order[..|order| - 1];
      var p := RunFiles(d, init, files, metadata, thumbs);
      assert RunFiles(d, order, files, metadata, thumbs) == p;
      assert order[..p.done] == init[..p.done];
      assert order[p.done] == init[p.done];
    }

    /** One more file: it is processed on the thumbnails as they were before the loop. */
    lemma OutcomeAfterStep(d: string, order: seq<string>, files: map<string, FileRecord>,
                           metadata: map<string, Json>, thumbs: map<string, int>)
      requires order != [] && Distinct(order) && ToSet(order) <= files.Keys && ToSet(order[..|order| - 1]) <= files.Keys
      requires forall f :: f in files ==> files[f].filename == f
      requires var p := RunFiles(d, order[..|order| - 1], files, metadata, thumbs);
        p.failure.None? && Outcome(d, order[..|order| - 1], files, metadata, thumbs, p)
      ensures Outcome(d, order, files, metadata, thumbs, RunFiles(d, order, files, metadata, thumbs))
    {
      var init := order[..|order| - 1];
      var f := order[|order| - 1];
      assert f in ToSet(order);
      assert f !in init by {
        forall k | 0 <= k < |init| ensures init[k] != f { assert order[k] != order[|order| - 1]; }
      }
      var p := RunFiles(d, init, files, metadata, thumbs);
      assert init[..p.done] == init;
      if StepOn(thumbs, d, files[f], metadata).Ok? {
        OutcomeAfterSuccess(d, order, files, metadata, thumbs);
      } else {
        assert StepOn(p.thumbs, d, p.files[f], metadata) == StepOn(thumbs, d, files[f], metadata);
      }
    }

    /** The case where that file's `process_file` returns. */
    lemma OutcomeAfterSuccess(d: string, order: seq<string>, files: map<string, FileRecord>,
                              metadata: map<string, Json>, thumbs: map<string, int>)
      requires order != [] && ToSet(order) <= files.Keys && ToSet(order[..|order| - 1]) <= files.Keys
      requires forall f :: f in files ==> files[f].filename == f
      requires order[|order| - 1] in files && order[|order| - 1] !in order[..|order| - 1]
      requires StepOn(thumbs, d, files[order[|order| - 1]], metadata).Ok?
      requires var p := RunFiles(d, order[..|order| - 1], files, metadata, thumbs);
        p.failure.None? && p.done == |order| - 1 && Outcome(d, order[..|order| - 1], files, metadata, thumbs, p)
      ensures Outcome(d, order, files, metadata, thumbs, RunFiles(d, order, files, metadata, thumbs))
    {
      var init := order[..|order| - 1];
      var f := order[|order| - 1];
      var p := RunFiles(d, init, files, metadata, thumbs);
      assert init[..p.done] == init;
      assert p.files[f] == files[f];
      assert StepOn(p.thumbs, d, p.files[f], metadata) == StepOn(thumbs, d, files[f], metadata);
      OutcomeExtend(d, order, files, metadata, thumbs, p, RunFiles(d, order, files, metadata, thumbs));
    }

    /** The outcome of the loop extended by one file whose `process_file` returns. */
    lemma OutcomeExtend(d: string, order: seq<string>, files: map<string, FileRecord>,
                        metadata: map<string, Json>, thumbs: map<string, int>, p: FilesRun, r: FilesRun)
      requires order != [] && ToSet(order) <= files.Keys && ToSet(order[..|order| - 1]) <= files.Keys
      requires forall f :: f in files ==> files[f].filename == f
      requires order[|order| - 1] in files && order[|order| - 1] !in order[..|order| - 1]
      requires p.done == |order| - 1 && Outcome(d, order[..|order| - 1], files, metadata, thumbs, p)
      requires var f := order[|order| - 1];
        var step := StepOn(thumbs, d, files[f], metadata);
        step.Ok? && r == FilesRun(p.files[f := step.value.record], ThumbsAfter(p.thumbs, files[f], step), |order|, None)
      ensures Outcome(d, order, files, metadata, thumbs, r)
    {
      var init := order[..|order| - 1];
      var f := order[|order| - 1];
      assert init[..p.done] == init && order[..r.done] == order;
      InitLast(order);
      forall g | g in files && g !in order
        ensures g in r.files && r.files[g] == files[g] && Lookup(r.thumbs, g + ".png") == Lookup(thumbs, g + ".png")
      {
        if g + ".png" == f + ".png" { PngSuffixInjective(g, f); }
        assert g !in init[..p.done];
      }
      forall g | g in order
        ensures g in files && g in r.files && StepOn(thumbs, d, files[g], metadata).Ok?
             && r.files[g] == StepOn(thumbs, d, files[g], metadata).value.record
      {
        if g != f {
          assert g in init[..p.done];
        }
      }
    }

    /** The loop one file further on. */
    lemma RunFilesNext(d: string, order: seq<string>, j: int, files: map<string, FileRecord>,
                       metadata: map<string, Json>, thumbs: map<string, int>)
      requires 0 <= j < |order| && ToSet(order) <= files.Keys
      ensures ToSet(order[..j]) <= files.Keys && ToSet(order[..j + 1]) <= files.Keys
      ensures var p := RunFiles(d, order[..j], files, metadata, thumbs);
        order[j] in p.files &&
        RunFiles(d, order[..j + 1], files, metadata, thumbs) ==
          if p.failure.Some? then p
          else
            var step := StepOn(p.thumbs, d, p.files[order[j]], metadata);
            if step.Err? then p.(failure := Some(step.error))
            else FilesRun(p.files[order[j] := step.value.record], ThumbsAfter(p.thumbs, p.files[order[j]], step), p.done + 1, None)
    {
      PrefixInSet(order, j);
      PrefixInSet(order, j + 1);
      assert order[..j + 1][..j] == order[..j];
      assert order[j] in ToSet(order);
    }

    /**
     * The loop over all the files of a listing: it completes exactly when no
     * file's `process_file` raises, each file then holding its record
     * computed on the thumbnails as they were before the loop; otherwise
     * the exception is that of the first file whose `process_file` raises.
     */
    lemma RunFilesOnListing(d: string, names: seq<string>, files: map<string, FileRecord>,
                            metadata: map<string, Json>, thumbs: map<string, int>)
      requires ToSet(names) == files.Keys && Distinct(names)
      requires forall f :: f in files ==> files[f].filename == f
      ensures var r := RunFiles(d, names, files, metadata, thumbs);
        && (r.failure.None? <==> forall f :: f in files ==> StepOn(thumbs, d, files[f], metadata).Ok?)
        && (r.failure.None? ==>
              forall f :: f in files ==> r.files[f] == StepOn(thumbs, d, files[f], metadata).value.record)
        && (r.failure.Some? ==>
              exists k :: 0 <= k < |names|
                && StepOn(thumbs, d, files[names[k]], metadata) == Err(r.failure.value)
                && forall i :: 0 <= i < k ==> StepOn(thumbs, d, files[names[i]], metadata).Ok?)
    {
      RunFilesOutcome(d, names, files, metadata, thumbs);
      var r := RunFiles(d, names, files, metadata, thumbs);
      if r.failure.Some? {
        var k := r.done;
        assert names[k] in files by { assert names[k] in ToSet(names); }
        forall i | 0 <= i < k ensures StepOn(thumbs, d, files[names[i]], metadata).Ok? {
          assert names[i] in names[..k];
        }
      } else {
        assert names[..r.done] == names;
        forall f | f in files ensures f in names { assert f in ToSet(names); }
      }
    }

    /** Once the loop has stopped on an exception, the files after it do not matter. */
    lemma {:induction false} RunFilesStops(d: string, order: seq<string>, k: nat, files: map<string, FileRecord>,
                                           metadata: map<string, Json>, thumbs: map<string, int>)
      requires k <= |order| && ToSet(order) <= files.Keys
      requires ToSet(order[..k]) <= files.Keys
      requires RunFiles(d, order[..k], files, metadata, thumbs).failure.Some?
      ensures RunFiles(d, order, files, metadata, thumbs) == RunFiles(d, order[..k], files, metadata, thumbs)
    {
      if k < |order| {
        var init := order[..|order| - 1];
        assert ToSet(init) <= ToSet(order);
        assert init[..k] == order[..k];
        RunFilesStops(d, init, k, files, metadata, thumbs);
      } else {
        assert order[..k] == order;
      }
    }

    /** The loop over the sorted file names, each record replaced by what `process_file` returns; an exception stops it. */
    method ProcessFiles(d: string, order: seq<string>, files: map<string, FileRecord>, metadata: map<string, Json>)
      returns (res: Result<map<string, FileRecord>>)
      requires d in admin && ToSet(order) <= files.Keys
      modifies this
      ensures var run := RunFiles(d, order, files, metadata, old(admin)[d].thumbs);
        && admin == old(admin)[d := old(admin)[d].(thumbs := run.thumbs)]
        && res == if run.failure.Some? then Err(run.failure.value) else Ok(run.files)
      ensures indexes == old(indexes) && trace == old(trace)
    {
      ghost var thumbs0 := admin[d].thumbs;
      var current := files;
      var j := 0;
      while j < |order|
        invariant 0 <= j <= |order| && ToSet(order[..j]) <= files.Keys
        invariant d in admin && admin == old(admin)[d := old(admin)[d].(thumbs := admin[d].thumbs)]
        invariant indexes == old(indexes) && trace == old(trace)
        invariant RunFiles(d, order[..j], files, metadata, thumbs0) == FilesRun(current, admin[d].thumbs, j, None)
      {
        var f := order[j];
        RunFilesNext(d, order, j, files, metadata, thumbs0);
        ghost var thumbs1 := admin[d].thumbs;
        var r := ProcessFile(d, ThumbDir(d), current[f], metadata);
        UpdateTwice(old(admin), d, old(admin)[d].(thumbs := thumbs1), old(admin)[d].(thumbs := admin[d].thumbs));
        if r.Err? {
          RunFilesStops(d, order, j + 1, files, metadata, thumbs0);
          return Err(r.error);
        }
        current := current[f := r.value];
        j := j + 1;
      }
      assert order[..j] == order;
      res := Ok(current);
    }
  }
}
