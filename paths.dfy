/** Paths as sequences of components, the exclusion test and the display label. */
module Paths {
  import opened Wrappers

  /** The name inside a normal component: valid UTF-8 text, or raw bytes that are
      not. `NotUtf8` stands only for byte strings that are not valid UTF-8: a name
      that decodes is always written `Utf8`, so each name has one spelling. */
  datatype OsName = Utf8(text: string) | NotUtf8(raw: seq<byte>)

  /** One component of a path, after the separators have been parsed away. */
  datatype Component = RootDir | CurDir | ParentDir | Normal(name: OsName)

  type Path = seq<Component>

  /** The directory names whose subtrees are never walked. */
  const ExcludedDirs: seq<string> := [".git"]

  /** The single component that the exclusion list names. */
  const GitDir: Component := Normal(Utf8(".git"))

  /** A component as a string, when it is valid UTF-8. */
  function AsStr(c: Component): Option<string>
  {
    match c
    case RootDir => Some("/")
    case CurDir => Some(".")
    case ParentDir => Some("..")
    case Normal(Utf8(s)) => Some(s)
    case Normal(NotUtf8(_)) => None
  }

  /** A component matches when its string form is in the exclusion list;
      a component that is not valid UTF-8 never matches. */
  predicate IsExcludedComponent(c: Component)
  {
    match AsStr(c)
    case Some(s) => s in ExcludedDirs
    case None => false
  }

  /** A path is excluded when any of its components matches: the whole
      component, compared case-sensitively. */
  predicate IsExcluded(p: Path)
    ensures IsExcluded(p) <==> GitDir in p
  {
    exists i :: 0 <= i < |p| && IsExcludedComponent(p[i])
  }

  /** Everything beneath an excluded path is excluded too. */
  lemma ExcludedExtends(p: Path, q: Path)
    requires IsExcluded(p)
    ensures IsExcluded(p + q)
  {
    assert GitDir in p + q;
  }

  /** Component-wise prefix removal: the rest of `path` after `base`, or None
      when `base` is not a component-wise prefix of `path`. */
  function StripPrefix(path: Path, base: Path): (r: Option<Path>)
    ensures r.Some? <==> base <= path
    ensures r.Some? ==> base + r.value == path
  {
    if base == [] then Some(path)
    else if path == [] || path[0] != base[0] then None
    else
      var rest := StripPrefix(path[1..], base[1..]);
      assert rest.Some? ==> base + rest.value == [base[0]] + (base[1..] + rest.value);
      assert base[1..] <= path[1..] ==> base <= path;
      rest
  }

  /** The label a file is shown under: the path relative to `cwd` when `cwd`
      is a component-wise prefix of it, and the path unchanged otherwise. */
  function Label(path: Path, cwd: Path): (shown: Path)
    ensures cwd <= path ==> cwd + shown == path
    ensures !(cwd <= path) ==> shown == path
  {
    match StripPrefix(path, cwd)
    case Some(rest) => rest
    case None => path
  }

  /** The text of one component as it is displayed. */
  function ComponentText(c: Component): string
  {
    match AsStr(c)
    case Some(s) => s
    case None => "�"
  }

  /** A path displayed as its components joined by '/', the root standing
      for the leading '/'. */
  function Render(p: Path): (r: string)
    ensures p == [] ==> r == ""
    ensures |p| > 0 && p[0] == RootDir ==> |r| > 0 && r[0] == '/'
    ensures |p| > 1 && p[0] != RootDir ==> ComponentText(p[0]) + "/" <= r
  {
    if p == [] then ""
    else if |p| == 1 || p[0] == RootDir then ComponentText(p[0]) + Render(p[1..])
    else ComponentText(p[0]) + "/" + Render(p[1..])
  }
}
