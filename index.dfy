/**
 * `write_index` with the HTML text left out: the listing it writes is an
 * ordered list of table rows, an optional link to the parent's index, one
 * row per subdirectory and one per file.
 */
module Index {
  import opened Names
  import opened Records

  /** The `type` column of a row. */
  datatype Kind = Folder | File

  /** One `_entry(...)` row: its type, its text, its link and the image shown, if any. */
  datatype Row = Row(kind: Kind, text: string, href: string, image: Option<string>)

  /** The row of `generate_parent_link`. */
  function ParentRow(dirname: string): Row
  {
    Row(Folder, "Parent directory", Join(Join(dirname, ".."), "bview.html"), None)
  }

  /** The row of subdirectory path `d`, linking to its own index. */
  function FolderRow(d: string): Row
  {
    Row(Folder, d, Join(d, "bview.html"), None)
  }

  /** `_entry` shows the thumbnail only when `thumbnail` is a non-empty path that exists on disk. */
  function ShownImage(r: FileRecord, onDisk: set<string>): Option<string>
  {
    if r.thumbname.Some? && r.thumbname.value != "" && r.thumbname.value in onDisk then r.thumbname else None
  }

  function FileRow(name: string, r: FileRecord, onDisk: set<string>): Row
  {
    Row(File, name, r.absFilename, ShownImage(r, onDisk))
  }

  /** The `for d in subdirs` loop. */
  function FolderRows(subdirs: seq<string>): (rows: seq<Row>)
    ensures |rows| == |subdirs|
    ensures forall i :: 0 <= i < |subdirs| ==> rows[i] == FolderRow(subdirs[i])
  {
    if subdirs == [] then [] else [FolderRow(subdirs[0])] + FolderRows(subdirs[1..])
  }

  /** The `for ff in files` loop, in the dict's key order `names`. */
  function FileRows(names: seq<string>, files: map<string, FileRecord>, onDisk: set<string>): (rows: seq<Row>)
    requires ToSet(names) <= files.Keys
    ensures |rows| == |names|
    ensures forall i :: 0 <= i < |names| ==> names[i] in files && rows[i] == FileRow(names[i], files[names[i]], onDisk)
  {
    if names == [] then []
    else
      assert names[0] in ToSet(names) && ToSet(names[1..]) <= ToSet(names);
      [FileRow(names[0], files[names[0]], onDisk)] + FileRows(names[1..], files, onDisk)
  }

  /** The rows of `bview.html` for `dirname`; `onDisk` is the set of paths that exist when it is written. */
  function IndexRows(dirname: string, subdirs: seq<string>, names: seq<string>,
                     files: map<string, FileRecord>, onDisk: set<string>, parentLink: bool): (rows: seq<Row>)
    requires ToSet(names) <= files.Keys
  {
    (if parentLink then [ParentRow(dirname)] else []) + (FolderRows(subdirs) + FileRows(names, files, onDisk))
  }

  /**
   * `rows` lists the subdirectories in order, then the files in order, a
   * file's thumbnail appearing only when it is a non-empty path on disk.
   */
  ghost predicate ListsInOrder(rows: seq<Row>, subdirs: seq<string>, names: seq<string>,
                               files: map<string, FileRecord>, onDisk: set<string>)
    requires ToSet(names) <= files.Keys
  {
    && |rows| == |subdirs| + |names|
    && (forall i :: 0 <= i < |subdirs| ==> rows[i] == FolderRow(subdirs[i]))
    && (forall i :: 0 <= i < |names| ==>
          && names[i] in files
          && rows[|subdirs| + i].kind == File
          && rows[|subdirs| + i].text == names[i]
          && rows[|subdirs| + i].href == files[names[i]].absFilename
          && (rows[|subdirs| + i].image.Some? <==>
                files[names[i]].thumbname.Some? && files[names[i]].thumbname.value != ""
                && files[names[i]].thumbname.value in onDisk))
  }

  /** The folder rows followed by the file rows are laid out in that order. */
  lemma BodyLayout(subdirs: seq<string>, names: seq<string>, files: map<string, FileRecord>, onDisk: set<string>)
    requires ToSet(names) <= files.Keys
    ensures ListsInOrder(FolderRows(subdirs) + FileRows(names, files, onDisk), subdirs, names, files, onDisk)
  {
    var folders := FolderRows(subdirs);
    var fileRows := FileRows(names, files, onDisk);
    var rows := folders + fileRows;
    forall i | 0 <= i < |names|
      ensures rows[|subdirs| + i] == FileRow(names[i], files[names[i]], onDisk)
    {
      assert rows[|subdirs| + i] == fileRows[i];
    }
  }

  /**
   * The layout of an index: the parent row first exactly when asked for,
   * then the subdirectories in order, then the files in order.
   */
  lemma IndexLayout(dirname: string, subdirs: seq<string>, names: seq<string>,
                    files: map<string, FileRecord>, onDisk: set<string>, parentLink: bool)
    requires ToSet(names) <= files.Keys
    ensures var rows := IndexRows(dirname, subdirs, names, files, onDisk, parentLink);
      && (parentLink ==> rows != [] && rows[0] == ParentRow(dirname) && ListsInOrder(rows[1..], subdirs, names, files, onDisk))
      && (!parentLink ==> ListsInOrder(rows, subdirs, names, files, onDisk))
  {
    var rows := IndexRows(dirname, subdirs, names, files, onDisk, parentLink);
    var body := FolderRows(subdirs) + FileRows(names, files, onDisk);
    BodyLayout(subdirs, names, files, onDisk);
    if parentLink {
      assert rows[1..] == body;
    } else {
      assert rows == body;
    }
  }
}
