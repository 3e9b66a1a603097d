/** A worked run over a small tree: one text file, one binary file and a `.git`
    directory holding a text file. */
module Scenarios {
  import opened Wrappers
  import opened Paths
  import opened Content
  import opened Framing
  import opened FileSystem
  import opened Emitter
  import opened Walker
  import opened Sequences
  import opened Driver

  function Name(s: string): Component { Normal(OsName.Utf8(s)) }

  const Dir: Path := [Name("d")]
  const TextPath: Path := [Name("d"), Name("a.txt")]
  const BinaryPath: Path := [Name("d"), Name("bin")]
  const GitPath: Path := [Name("d"), GitDir]
  const HiddenPath: Path := [Name("d"), GitDir, Name("config")]

  /** A stand-in heuristic: a sample holding a zero byte is binary, anything else UTF-8. */
  function Sniff(sample: seq<byte>): ContentType
  {
    if 0 in sample then Binary else ContentType.Utf8
  }

  /** A regular file whose bytes decode to `content`. */
  function TextNode(bytes: seq<byte>, content: string): Node
  {
    Node(RegularFile, true, ReadUpTo(SampleSize), bytes, Some(content))
  }

  const Tree: map<Path, Node> := map[
    Dir := Node(Directory, true, ReadFails, [], None),
    TextPath := TextNode([104, 105], "hi"),
    BinaryPath := Node(RegularFile, true, ReadUpTo(SampleSize), [0, 1, 2], None),
    GitPath := Node(Directory, true, ReadFails, [], None),
    HiddenPath := TextNode([115, 101, 99, 114, 101, 116], "secret")
  ]

  /** The walk from `d` in one possible order; every other order gives the same block set. */
  function Walk(root: Path): seq<Path>
  {
    if root == Dir then [Dir, TextPath, BinaryPath, GitPath, HiddenPath] else []
  }

  function Example(): Env
  {
    Env(Tree, Some([RootDir, Name("home")]), Sniff, Walk, true)
  }

  lemma WalkCandidates()
    ensures Candidates(Example(), Walk(Dir)) == [TextPath, BinaryPath]
  {
    var env, w := Example(), Walk(Dir);
    assert GitDir !in Dir && GitDir !in TextPath && GitDir !in BinaryPath;
    assert GitDir in GitPath && GitDir in HiddenPath;
    assert TextPath != Dir && BinaryPath != Dir && BinaryPath != TextPath;
    assert IsDir(env, Dir) && !IsDir(env, TextPath) && !IsDir(env, BinaryPath);
    assert Candidates(env, w[4..]) == [];
    assert w[3..][1..] == w[4..];
    assert Candidates(env, w[3..]) == [];
    assert w[2..][1..] == w[3..];
    assert Candidates(env, w[2..]) == [BinaryPath];
    assert w[1..][1..] == w[2..];
    assert Candidates(env, w[1..]) == [TextPath, BinaryPath];
  }

  lemma BinarySkipped()
    ensures FileOutput(Example(), BinaryPath) == ""
  {
    var node := Tree[BinaryPath];
    assert node.bytes == [0, 1, 2] && node.firstRead == ReadUpTo(SampleSize);
    assert node.bytes[..3] == node.bytes;
    assert Sample(node) == Some(node.bytes);
    assert Sniff(node.bytes) == Binary;
  }

  lemma TextEmitted()
    ensures FileOutput(Example(), TextPath) == Block("d/a.txt", "hi")
  {
    var node := Tree[TextPath];
    assert node.bytes == [104, 105] && node.firstRead == ReadUpTo(SampleSize);
    assert node.bytes[..2] == node.bytes;
    assert Sample(node) == Some(node.bytes);
    assert Sniff(node.bytes) == ContentType.Utf8;
    assert Label(TextPath, [RootDir, Name("home")]) == TextPath;
    assert Render(TextPath) == "d/a.txt";
  }

  /** Running over `d` writes exactly one block, for the text file, labelled with
      the path as given since it does not lie beneath the working directory. */
  lemma MixedDirectory()
    ensures RunOutput(Example(), [Dir]) == Block("d/a.txt", "hi")
  {
    var env := Example();
    assert IsDir(env, Dir);
    DirectoryArgument(env, Dir);
    WalkCandidates();
    BinarySkipped();
    TextEmitted();
    ConcatAppend(FileWriter(env), [TextPath], [BinaryPath]);
    ConcatSingle(FileWriter(env), TextPath);
    ConcatSingle(FileWriter(env), BinaryPath);
  }
}
