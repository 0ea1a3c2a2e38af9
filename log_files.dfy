/**
 * The filesystem `print2File` touches, as a value: `createOrExistsFile`,
 * `createOrExistsDir`, and the `java.io.File` operations they use
 * (`getParentFile`, `mkdir`, `mkdirs`, `createNewFile`, append through
 * `FileWriter`).
 */
module LogFiles {
  import opened Optional
  import opened JavaLang

  const SEP: char := '/'

  datatype Node = File(contents: string) | Dir

  /**
   * Paths and what they name. `readOnly` holds the paths the process may not
   * write: no entry can be created inside such a directory, and such a file
   * cannot be opened for appending.
   */
  datatype FileSystem = FileSystem(nodes: map<string, Node>, readOnly: set<string>)

  /** Index of the last `ch` in `s` (`String.lastIndexOf`). */
  function LastIndexOf(s: string, ch: char): (r: Option<nat>)
    ensures r.None? <==> ch !in s
    ensures r.Some? ==> r.value < |s| && s[r.value] == ch && ch !in s[r.value + 1..]
    decreases |s|
  {
    if |s| == 0 then None
    else if s[|s| - 1] == ch then Some(|s| - 1)
    else
      var r := LastIndexOf(s[..|s| - 1], ch);
      assert s == s[..|s| - 1] + [s[|s| - 1]];
      if r.Some? then assert s[r.value + 1..] == s[..|s| - 1][r.value + 1..] + [s[|s| - 1]]; r else r
  }

  /**
   * `File.getParent` on a Unix path: everything before the last separator;
   * `"/"` for a top-level absolute path; null for a single relative name and
   * for the root itself.
   */
  function Parent(path: string): (r: Option<string>)
    ensures r.Some? ==> |r.value| < |path| && r.value <= path
  {
    var prefix := if StartsWith(path, SEP) then 1 else 0;
    match LastIndexOf(path, SEP)
    case None => None
    case Some(k) =>
      if k < prefix then (if |path| > prefix then Some([SEP]) else None)
      else Some(path[..k])
  }

  /** `File.mkdir`: creates one directory whose parent is a writable directory. */
  function Mkdir(fs: FileSystem, p: string): (r: Option<FileSystem>)
    ensures r.Some? ==> p !in fs.nodes && r.value == fs.(nodes := fs.nodes[p := Dir])
  {
    if p in fs.nodes then None
    else match Parent(p)
      case None => None
      case Some(q) =>
        if q in fs.nodes && fs.nodes[q].Dir? && q !in fs.readOnly then Some(fs.(nodes := fs.nodes[p := Dir]))
        else None
  }

  /**
   * `File.mkdirs`: creates the directory and any missing ancestors; on failure
   * the ancestors it already made stay. A path with no parent cannot be made
   * (the working directory of an Android process is the read-only root).
   */
  function Mkdirs(fs: FileSystem, p: string): (bool, FileSystem)
    decreases |p|
  {
    if p in fs.nodes then (false, fs)
    else match Mkdir(fs, p)
      case Some(fs1) => (true, fs1)
      case None =>
        match Parent(p)
        case None => (false, fs)
        case Some(q) =>
          var (ok, fs1) := Mkdirs(fs, q);
          if ok || q in fs1.nodes then
            match Mkdir(fs1, p)
            case Some(fs2) => (true, fs2)
            case None => (false, fs1)
          else (false, fs1)
  }

  /** `createOrExistsDir`: a null path fails; an existing one must be a directory. */
  function CreateOrExistsDir(fs: FileSystem, dir: Option<string>): (bool, FileSystem) {
    match dir
    case None => (false, fs)
    case Some(p) => if p in fs.nodes then (fs.nodes[p].Dir?, fs) else Mkdirs(fs, p)
  }

  /** `File.createNewFile`: a new empty file in a writable directory; `None` stands for false or an exception. */
  function CreateNewFile(fs: FileSystem, p: string): (r: Option<FileSystem>)
    ensures r.Some? ==> p !in fs.nodes && r.value == fs.(nodes := fs.nodes[p := File("")])
  {
    if p in fs.nodes then None
    else match Parent(p)
      case None => None
      case Some(q) =>
        if q in fs.nodes && fs.nodes[q].Dir? && q !in fs.readOnly then Some(fs.(nodes := fs.nodes[p := File("")]))
        else None
  }

  /** `createOrExistsFile`. */
  function CreateOrExistsFile(fs: FileSystem, p: string): (bool, FileSystem) {
    if p in fs.nodes then (fs.nodes[p].File?, fs)
    else
      var (ok, fs1) := CreateOrExistsDir(fs, Parent(p));
      if !ok then (false, fs1)
      else match CreateNewFile(fs1, p)
        case Some(fs2) => (true, fs2)
        case None => (false, fs1)
  }

  /** `new FileWriter(p, true).write(text)`: appends, creating the file if it is missing. */
  function AppendFile(fs: FileSystem, p: string, text: string): (r: Option<FileSystem>)
    ensures p in fs.nodes && fs.nodes[p].File? && p !in fs.readOnly
        ==> r == Some(fs.(nodes := fs.nodes[p := File(fs.nodes[p].contents + text)]))
    ensures p in fs.readOnly ==> r.None?
  {
    if p in fs.readOnly then None
    else if p in fs.nodes then
      (if fs.nodes[p].File? then Some(fs.(nodes := fs.nodes[p := File(fs.nodes[p].contents + text)])) else None)
    else match CreateNewFile(fs, p)
      case None => None
      case Some(fs1) => Some(fs1.(nodes := fs1.nodes[p := File(text)]))
  }

  // ===========================================================================
  // Properties
  // ===========================================================================

  /** `fs1` is `fs` with some directories added: nothing existing changes or goes. */
  ghost predicate AddsOnlyDirs(fs: FileSystem, fs1: FileSystem) {
    && fs1.readOnly == fs.readOnly
    && (forall k :: k in fs.nodes ==> k in fs1.nodes && fs1.nodes[k] == fs.nodes[k])
    && (forall k :: k in fs1.nodes && k !in fs.nodes ==> fs1.nodes[k] == Dir)
  }

  /** `fs1` is `fs` plus at most the entries `AddsOnlyDirs` allows and the one new file `p`. */
  ghost predicate AddsDirsAndFile(fs: FileSystem, fs1: FileSystem, p: string) {
    && fs1.readOnly == fs.readOnly
    && (forall k :: k in fs.nodes ==> k in fs1.nodes && fs1.nodes[k] == fs.nodes[k])
    && (forall k :: k in fs1.nodes && k !in fs.nodes && k != p ==> fs1.nodes[k] == Dir)
  }

  /** `mkdirs` only ever adds directories, and on success the path is a directory. */
  lemma {:induction false} MkdirsAddsOnlyDirs(fs: FileSystem, p: string)
    ensures AddsOnlyDirs(fs, Mkdirs(fs, p).1)
    ensures Mkdirs(fs, p).0 ==> p !in fs.nodes && p in Mkdirs(fs, p).1.nodes && Mkdirs(fs, p).1.nodes[p] == Dir
    ensures p in fs.nodes ==> Mkdirs(fs, p) == (false, fs)
    decreases |p|
  {
    if p !in fs.nodes && Mkdir(fs, p).None? {
      match Parent(p)
      case None =>
      case Some(q) =>
        MkdirsAddsOnlyDirs(fs, q);
    }
  }

  /** A directory that already exists is accepted as it is, and anything else there is refused. */
  lemma CreateOrExistsDirExisting(fs: FileSystem, p: string)
    requires p in fs.nodes
    ensures CreateOrExistsDir(fs, Some(p)) == (fs.nodes[p].Dir?, fs)
  {
  }

  /** On success the directory exists; in any case only directories were added. */
  lemma CreateOrExistsDirSpec(fs: FileSystem, dir: Option<string>)
    ensures AddsOnlyDirs(fs, CreateOrExistsDir(fs, dir).1)
    ensures CreateOrExistsDir(fs, dir).0 ==> dir.Some? && dir.value in CreateOrExistsDir(fs, dir).1.nodes
                                             && CreateOrExistsDir(fs, dir).1.nodes[dir.value] == Dir
    ensures dir.None? ==> CreateOrExistsDir(fs, dir) == (false, fs)
  {
    if dir.Some? && dir.value !in fs.nodes {
      MkdirsAddsOnlyDirs(fs, dir.value);
    }
  }

  /** An existing path is accepted only when it is a file, and the filesystem is left as it was. */
  lemma CreateOrExistsFileExisting(fs: FileSystem, p: string)
    requires p in fs.nodes
    ensures CreateOrExistsFile(fs, p) == (fs.nodes[p].File?, fs)
  {
  }

  /**
   * On success `p` is a file that was either already there or is new and
   * empty; nothing that existed changes, and besides `p` only directories
   * are added.
   */
  lemma CreateOrExistsFileSpec(fs: FileSystem, p: string)
    ensures var (ok, fs1) := CreateOrExistsFile(fs, p);
      && AddsDirsAndFile(fs, fs1, p)
      && (ok ==> p in fs1.nodes && fs1.nodes[p].File?)
      && (ok && p !in fs.nodes ==> fs1.nodes[p] == File(""))
      && (!ok ==> AddsOnlyDirs(fs, fs1))
  {
    if p !in fs.nodes {
      CreateOrExistsDirSpec(fs, Parent(p));
    }
  }

  /** A path without a parent (a bare relative name) can never be created. */
  lemma CreateOrExistsFileNeedsParent(fs: FileSystem, p: string)
    requires SEP !in p && p !in fs.nodes
    ensures CreateOrExistsFile(fs, p) == (false, fs)
  {
  }

  /** Appending to a writable file adds the text at its end and touches nothing else. */
  lemma AppendFileExtends(fs: FileSystem, p: string, text: string)
    requires p in fs.nodes && fs.nodes[p].File? && p !in fs.readOnly
    ensures AppendFile(fs, p, text).Some?
    ensures var fs1 := AppendFile(fs, p, text).value;
      && fs1.readOnly == fs.readOnly && fs1.nodes.Keys == fs.nodes.Keys
      && fs1.nodes[p] == File(fs.nodes[p].contents + text)
      && forall k :: k in fs.nodes && k != p ==> fs1.nodes[k] == fs.nodes[k]
  {
  }
}
