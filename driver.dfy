/** The program's entry point: each argument in order, all writing to one output file. */
module Driver {
  import opened Paths
  import opened FileSystem
  import opened Emitter
  import opened Walker
  import opened Sequences

  /** What one argument contributes: nothing when the path does not exist, the
      directory's output for a directory, the file's output for a regular file,
      and nothing for anything else. */
  function ArgOutput(env: Env, arg: Path): (r: string)
    ensures !Exists(env, arg) || env.fs[arg].kind == Special ==> r == ""
    ensures IsFile(env, arg) ==> r == FileOutput(env, arg)
    ensures IsDir(env, arg) ==> r == Concat(FileWriter(env), Candidates(env, env.walk(arg)))
  {
    if !Exists(env, arg) then ""
    else if IsDir(env, arg) then
      DirectoryOutputIsCandidates(env, arg);
      DirectoryOutput(env, arg)
    else if IsFile(env, arg) then FileOutput(env, arg)
    else ""
  }

  function ArgWriter(env: Env): Path -> string
  {
    arg => ArgOutput(env, arg)
  }

  /** The contents of the output file after a run over `args`. */
  function RunOutput(env: Env, args: seq<Path>): string
  {
    Concat(ArgWriter(env), args)
  }

  /** Arguments are processed independently and in order: the output of a run
      over two runs of arguments is the output of the first followed by the
      output of the second. */
  lemma RunOutputAppend(env: Env, xs: seq<Path>, ys: seq<Path>)
    ensures RunOutput(env, xs + ys) == RunOutput(env, xs) + RunOutput(env, ys)
  {
    ConcatAppend(ArgWriter(env), xs, ys);
  }

  /** A missing argument, or one that is neither a file nor a directory, adds
      nothing, and the arguments around it are processed as if it were absent. */
  lemma SkippedArgument(env: Env, xs: seq<Path>, arg: Path, ys: seq<Path>)
    requires !Exists(env, arg) || env.fs[arg].kind == Special
    ensures RunOutput(env, xs + [arg] + ys) == RunOutput(env, xs + ys)
  {
    RunOutputAppend(env, xs + [arg], ys);
    RunOutputAppend(env, xs, [arg]);
    RunOutputAppend(env, xs, ys);
    ConcatSingle(ArgWriter(env), arg);
    assert RunOutput(env, [arg]) == "";
  }

  /** A regular file named as an argument is processed directly, even when its
      path has a `.git` component. */
  lemma FileArgument(env: Env, arg: Path)
    requires IsFile(env, arg)
    ensures RunOutput(env, [arg]) == FileOutput(env, arg)
  {
    ConcatSingle(ArgWriter(env), arg);
  }

  /** A directory named as an argument contributes the outputs of the files its
      walk reaches that are neither directories nor at or beneath `.git`. */
  lemma DirectoryArgument(env: Env, arg: Path)
    requires IsDir(env, arg)
    ensures RunOutput(env, [arg]) == Concat(FileWriter(env), Candidates(env, env.walk(arg)))
  {
    ConcatSingle(ArgWriter(env), arg);
    DirectoryOutputIsCandidates(env, arg);
  }

  /** The program run: with no arguments it exits with status 1 before creating
      the output file; when the output file cannot be created it exits with
      status 1; otherwise it processes every argument in order and exits with 0. */
  method Run(env: Env, args: seq<Path>) returns (status: int, output: OutputFile?)
    ensures args == [] ==> status == 1 && output == null
    ensures args != [] && !env.canCreateOutput ==> status == 1 && output == null
    ensures args != [] && env.canCreateOutput ==>
              status == 0 && output != null && fresh(output) && output.contents == RunOutput(env, args)
  {
    if args == [] {
      return 1, null;
    }
    if !env.canCreateOutput {
      return 1, null;
    }
    var out := new OutputFile.Create();
    ghost var created := out.contents;
    for i := 0 to |args|
      invariant out.contents == created + Concat(ArgWriter(env), args[..i])
    {
      ConcatStep(created, ArgWriter(env), args, i);
      var arg := args[i];
      if !Exists(env, arg) {
        continue;
      }
      if IsDir(env, arg) {
        ProcessDirectory(env, arg, out);
      } else if IsFile(env, arg) {
        var result := ProcessFile(env, arg, out);
      } else {
        continue;
      }
    }
    assert args[..|args|] == args;
    assert created + RunOutput(env, args) == RunOutput(env, args);
    return 0, out;
  }
}
