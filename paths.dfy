/**
 * Paths as the programs see them: an absolute flag and a sequence of
 * components (no "" or "." components, no separator inside one), with the
 * parts of Rust's `std::path` and Python's `pathlib` that the programs use,
 * and the entries a directory walk yields. Paths found by walking or
 * canonicalising never contain ".."; a ".." in a path given on the command
 * line is kept as an ordinary component.
 */
module Paths {
  import opened Wrappers

  datatype Path = Path(absolute: bool, parts: seq<string>)

  /** `base.join(p)`: an absolute `p` replaces `base`, a relative one is appended. */
  function Join(base: Path, p: Path): (r: Path)
    ensures |r.parts| == if p.absolute then |p.parts| else |base.parts| + |p.parts|
    ensures r.parts[|r.parts| - |p.parts|..] == p.parts
  {
    if p.absolute then p else Path(base.absolute, base.parts + p.parts)
  }

  /** `p.strip_prefix(base)`: the rest of `p` when `base` is a component-wise prefix of it. */
  function StripPrefix(p: Path, base: Path): (r: Option<Path>)
    ensures r.Some? ==> !r.value.absolute && |r.value.parts| <= |p.parts|
  {
    if p.absolute == base.absolute && |base.parts| <= |p.parts| && p.parts[..|base.parts|] == base.parts
    then Some(Path(false, p.parts[|base.parts|..]))
    else None
  }

  /** Joining a relative path onto a base and stripping the base gives the relative path back. */
  lemma StripJoin(base: Path, rel: Path)
    requires !rel.absolute
    ensures StripPrefix(Join(base, rel), base) == Some(rel)
  {
    var j := Join(base, rel);
    assert j.parts[..|base.parts|] == base.parts;
    assert j.parts[|base.parts|..] == rel.parts;
  }

  /** Stripping a prefix and joining it back gives the original path. */
  lemma JoinStrip(p: Path, base: Path)
    requires StripPrefix(p, base).Some?
    ensures Join(base, StripPrefix(p, base).value) == p
  {
    assert base.parts + p.parts[|base.parts|..] == p.parts;
  }

  /** `p.parent()`: `None` for a path without components ("/" or ""). */
  function Parent(p: Path): (r: Option<Path>)
    ensures r.Some? <==> p.parts != []
    ensures r.Some? ==> r.value.absolute == p.absolute && r.value.parts + [p.parts[|p.parts| - 1]] == p.parts
  {
    if p.parts == [] then None else Some(Path(p.absolute, p.parts[..|p.parts| - 1]))
  }

  /** `p.file_name()`: the last component. */
  function FileName(p: Path): (r: Option<string>)
    ensures r.Some? <==> p.parts != []
  {
    if p.parts == [] then None else Some(p.parts[|p.parts| - 1])
  }

  /** Index of the last '.' in `s`, if there is one. */
  function LastDot(s: string): (r: Option<nat>)
    ensures r.Some? ==> r.value < |s| && s[r.value] == '.' && forall j :: r.value < j < |s| ==> s[j] != '.'
    ensures r.None? ==> forall j :: 0 <= j < |s| ==> s[j] != '.'
  {
    if s == [] then None
    else if s[|s| - 1] == '.' then Some(|s| - 1)
    else LastDot(s[..|s| - 1])
  }

  /**
   * Rust's extension of a file name: the text after the last '.', unless
   * there is no '.' or the only one starts the name (".profile" has none).
   */
  function RustExtension(name: string): (r: Option<string>)
    ensures r.None? <==> LastDot(name).None? || LastDot(name).value == 0
    ensures r.Some? ==> r.value == name[LastDot(name).value + 1..]
    ensures r.Some? ==> exists i :: 0 < i < |name| && name[i] == '.' && r.value == name[i + 1..]
    ensures r.Some? ==> forall j :: |name| - |r.value| <= j < |name| ==> name[j] != '.'
  {
    match LastDot(name)
    case None => None
    case Some(i) => if i == 0 then None else Some(name[i + 1..])
  }

  /** The extension of the file a path names, as `path.extension()` gives it. */
  function Extension(p: Path): Option<string> {
    match FileName(p)
    case None => None
    case Some(name) => RustExtension(name)
  }

  /**
   * Python's `PurePath.suffix` of a name: from the last '.' on, when that
   * '.' is neither the first nor the last character; otherwise "".
   */
  function PySuffix(name: string): (r: string)
    ensures r != [] <==> LastDot(name).Some? && 0 < LastDot(name).value < |name| - 1
    ensures r != [] ==> r == name[LastDot(name).value..]
    ensures r != [] ==> r[0] == '.' && 2 <= |r| < |name|
  {
    match LastDot(name)
    case None => ""
    case Some(i) => if 0 < i < |name| - 1 then name[i..] else ""
  }

  /** Python's `PurePath.stem` of a name: the name without its suffix. */
  function PyStem(name: string): (r: string)
    ensures |r| <= |name|
  {
    match LastDot(name)
    case None => name
    case Some(i) => if 0 < i < |name| - 1 then name[..i] else name
  }

  /** A name is its stem followed by its suffix. */
  lemma StemSuffix(name: string)
    ensures PyStem(name) + PySuffix(name) == name
  {
  }

  /** The name of a path as Python's `PurePath.name` gives it ("" for a path without components). */
  function PyName(p: Path): string {
    FileName(p).GetOr("")
  }

  /** What an entry is once symbolic links are followed (`Other` covers broken links, pipes, sockets). */
  datatype Kind = RegularFile | Directory | Other

  /** One entry of a directory walk: its path, what it resolves to, whether it is itself a link, its depth below the root. */
  datatype Entry = Entry(path: Path, target: Kind, isSymlink: bool, depth: nat)

  /** `path.is_dir()`: follows links. */
  predicate IsDir(e: Entry) {
    e.target == Directory
  }

  /** `entry.file_type().is_file()`: does not follow links. */
  predicate FileTypeIsFile(e: Entry) {
    !e.isSymlink && e.target == RegularFile
  }

  /** `path.is_file()` in Rust or Python: follows links. */
  predicate IsFile(e: Entry) {
    e.target == RegularFile
  }
}
