/** The environment the program runs in, taken as given: the filesystem as a
    snapshot, the working directory, the content inspector and the walker. */
module FileSystem {
  import opened Wrappers
  import opened Paths
  import opened Content

  /** What the metadata of an existing path says it is (symbolic links followed). */
  datatype Kind = RegularFile | Directory | Special

  /** How the first read from an opened file turns out: it fails, or it delivers
      at most `limit` bytes (the operating system may return fewer than asked). */
  datatype ReadOutcome = ReadFails | ReadUpTo(limit: nat)

  /** Everything the program can learn about one existing path: its kind, whether
      it can be opened for reading, how the first read goes, its bytes, and its
      whole content when that decodes strictly as UTF-8. */
  datatype Node = Node(
    kind: Kind,
    opens: bool,
    firstRead: ReadOutcome,
    bytes: seq<byte>,
    text: Option<string>)

  /** The environment of one run.
      - fs: the existing paths; a path not in it does not exist.
      - cwd: the current working directory, or None when it cannot be determined.
      - inspect: the content-type heuristic, from a byte sample to a classification.
      - walk: the entries a recursive walk from a directory yields, in walk order,
        before any filtering (the root itself first; unreadable entries already dropped).
      - canCreateOutput: whether the output file can be created. */
  datatype Env = Env(
    fs: map<Path, Node>,
    cwd: Option<Path>,
    inspect: seq<byte> -> ContentType,
    walk: Path -> seq<Path>,
    canCreateOutput: bool)

  /** The size of the buffer the leading sample is read into. */
  const SampleSize: nat := 512

  predicate Exists(env: Env, p: Path) { p in env.fs }

  predicate IsDir(env: Env, p: Path) { p in env.fs && env.fs[p].kind == Directory }

  predicate IsFile(env: Env, p: Path) { p in env.fs && env.fs[p].kind == RegularFile }

  function Min(a: nat, b: nat): nat { if a <= b then a else b }

  /** The number of bytes the first read into a buffer of `capacity` bytes delivers. */
  function ReadCount(node: Node, capacity: nat): Option<nat>
  {
    match node.firstRead
    case ReadFails => None
    case ReadUpTo(limit) => Some(Min(Min(limit, capacity), |node.bytes|))
  }

  /** The leading sample handed to the classifier: a prefix of the file of at
      most 512 bytes, or None when the first read fails. */
  function Sample(node: Node): (s: Option<seq<byte>>)
    ensures s.None? <==> node.firstRead == ReadFails
    ensures s.Some? ==> |s.value| <= SampleSize && |s.value| <= |node.bytes|
    ensures s.Some? ==> s.value == node.bytes[..|s.value|]
  {
    match ReadCount(node, SampleSize)
    case None => None
    case Some(n) => Some(node.bytes[..n])
  }
}
