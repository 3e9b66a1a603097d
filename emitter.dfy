/** Processing one file: sample, classify, read, and append one block. */
module Emitter {
  import opened Wrappers
  import opened Paths
  import opened Content
  import opened Framing
  import opened FileSystem

  /** The one error that leaves file processing early: the working directory
      could not be determined. */
  datatype IoError = CurrentDirUnavailable

  /** The output document: created empty, then only ever appended to. */
  class OutputFile {
    var contents: string

    /** Creating the output file truncates anything that was there. */
    constructor Create()
      ensures contents == []
    {
      contents := [];
    }

    /** Writes `s` followed by a line break. */
    method WriteLine(s: string)
      modifies this
      ensures contents == old(contents) + s + "\n"
    {
      contents := contents + s + "\n";
    }
  }

  /** The file at `path` opens, its first read succeeds and the sample is text. */
  predicate IsTextFile(env: Env, path: Path)
  {
    && path in env.fs
    && env.fs[path].opens
    && Sample(env.fs[path]).Some?
    && IsText(env.inspect(Sample(env.fs[path]).value))
  }

  /** The file at `path` is emitted: it is a text file, the working directory
      is known and the whole file decodes. */
  predicate Accepted(env: Env, path: Path)
  {
    IsTextFile(env, path) && env.cwd.Some? && env.fs[path].text.Some?
  }

  /** The label written in the tags of the block for `path`. */
  function LabelText(env: Env, path: Path): string
    requires env.cwd.Some?
  {
    Render(Label(path, env.cwd.value))
  }

  /** What processing the file at `path` appends to the output document. */
  function FileOutput(env: Env, path: Path): string
  {
    if path !in env.fs || !env.fs[path].opens then ""
    else
      var node := env.fs[path];
      match Sample(node)
      case None => ""
      case Some(sample) =>
        if !IsText(env.inspect(sample)) then ""
        else
          match env.cwd
          case None => ""
          case Some(cwd) =>
            match node.text
            case None => ""
            case Some(content) => Block(Render(Label(path, cwd)), content)
  }

  /** A file contributes nothing when it cannot be opened, when its first read
      fails, when its sample is not text, when the working directory is unknown or
      when it does not decode; otherwise it contributes exactly one block, whose
      body is the decoded content verbatim and whose tags name its display label. */
  lemma FileOutputCases(env: Env, path: Path)
    // the file cannot be opened
    ensures path !in env.fs || !env.fs[path].opens ==> FileOutput(env, path) == ""
    // the first read fails
    ensures path in env.fs && Sample(env.fs[path]).None? ==> FileOutput(env, path) == ""
    // the sample is not text
    ensures (path in env.fs && Sample(env.fs[path]).Some? &&
             !IsText(env.inspect(Sample(env.fs[path]).value))) ==> FileOutput(env, path) == ""
    // the working directory is unknown
    ensures env.cwd.None? ==> FileOutput(env, path) == ""
    // the whole file does not decode
    ensures path in env.fs && env.fs[path].text.None? ==> FileOutput(env, path) == ""
    // otherwise exactly one block, holding the decoded content verbatim
    ensures Accepted(env, path) ==> FileOutput(env, path) == Block(LabelText(env, path), env.fs[path].text.value)
  {
  }

  /** The first read: copies up to `buffer.Length` leading bytes of the file
      into `buffer` and says how many, or None when the read fails. */
  method ReadInto(node: Node, buffer: array<byte>) returns (n: Option<nat>)
    modifies buffer
    ensures n == ReadCount(node, buffer.Length)
    ensures n.Some? ==> n.value <= buffer.Length && n.value <= |node.bytes|
    ensures n.Some? ==> buffer[..n.value] == node.bytes[..n.value]
  {
    match node.firstRead
    case ReadFails =>
      n := None;
    case ReadUpTo(limit) =>
      var count := Min(Min(limit, buffer.Length), |node.bytes|);
      forall i | 0 <= i < count {
        buffer[i] := node.bytes[i];
      }
      n := Some(count);
  }

  /** Processes one file: appends its block when it is accepted and nothing
      otherwise; fails only when the working directory is needed and unknown. */
  method ProcessFile(env: Env, path: Path, output: OutputFile) returns (r: Outcome<IoError>)
    modifies output
    ensures output.contents == old(output.contents) + FileOutput(env, path)
    ensures r.Fail? <==> IsTextFile(env, path) && env.cwd.None?
  {
    if path !in env.fs || !env.fs[path].opens {
      return Pass;
    }
    var node := env.fs[path];
    var buffer := new byte[SampleSize];
    var n := ReadInto(node, buffer);
    if n.None? {
      return Pass;
    }
    var sample := buffer[..n.value];
    assert Sample(node) == Some(sample);
    if IsText(env.inspect(sample)) {
      if env.cwd.None? {
        return Fail(CurrentDirUnavailable);
      }
      var shown := Label(path, env.cwd.value);
      if node.text.None? {
        return Pass;
      }
      var content := node.text.value;
      output.WriteLine(OpenTag(Render(shown)));
      output.WriteLine(content);
      output.WriteLine(CloseTag(Render(shown)) + "\n");
      BlockLines(old(output.contents), Render(shown), content);
    }
    return Pass;
  }
}
