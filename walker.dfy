/** Walking a directory: pruning excluded subtrees and emitting every file found. */
module Walker {
  import opened Paths
  import opened FileSystem
  import opened Emitter
  import opened Sequences

  /** The entries at the front of `ws` that lie beneath `root`: the rest of a
      directory's subtree, which the walk skips when the directory is pruned. */
  function SkipUnder(root: Path, ws: seq<Path>): (r: seq<Path>)
    ensures |r| <= |ws| && r == ws[|ws| - |r|..]
  {
    if ws != [] && root <= ws[0] then SkipUnder(root, ws[1..]) else ws
  }

  /** The walk as the loop sees it: an excluded entry is dropped and the walk
      does not descend into it, so the entries beneath it are dropped too. */
  function Pruned(ws: seq<Path>): (r: seq<Path>)
    ensures forall p :: p in r ==> p in ws && GitDir !in p
    decreases |ws|
  {
    if ws == [] then []
    else if IsExcluded(ws[0]) then Pruned(SkipUnder(ws[0], ws[1..]))
    else [ws[0]] + Pruned(ws[1..])
  }

  /** Reference definition: the entries of `ws` that are not excluded, in order. */
  function Unexcluded(ws: seq<Path>): seq<Path>
  {
    if ws == [] then []
    else (if IsExcluded(ws[0]) then [] else [ws[0]]) + Unexcluded(ws[1..])
  }

  /** Skipping the subtree of an excluded entry loses nothing that is not excluded. */
  lemma {:induction false} SkipUnderExcluded(root: Path, ws: seq<Path>)
    requires IsExcluded(root)
    ensures Unexcluded(SkipUnder(root, ws)) == Unexcluded(ws)
  {
    if ws != [] && root <= ws[0] {
      assert root + ws[0][|root|..] == ws[0];
      ExcludedExtends(root, ws[0][|root|..]);
      SkipUnderExcluded(root, ws[1..]);
    }
  }

  /** Pruning subtrees at excluded entries keeps exactly the entries that are not
      excluded, in walk order. */
  lemma {:induction false} PrunedIsUnexcluded(ws: seq<Path>)
    ensures Pruned(ws) == Unexcluded(ws)
    decreases |ws|
  {
    if ws != [] {
      if IsExcluded(ws[0]) {
        var rest := SkipUnder(ws[0], ws[1..]);
        assert Pruned(ws) == Pruned(rest);
        assert Unexcluded(ws) == Unexcluded(ws[1..]);
        SkipUnderExcluded(ws[0], ws[1..]);
        PrunedIsUnexcluded(rest);
      } else {
        assert Pruned(ws) == [ws[0]] + Pruned(ws[1..]);
        assert Unexcluded(ws) == [ws[0]] + Unexcluded(ws[1..]);
        PrunedIsUnexcluded(ws[1..]);
      }
    }
  }

  lemma {:induction false} UnexcludedMembers(ws: seq<Path>, p: Path)
    ensures p in Unexcluded(ws) <==> p in ws && !IsExcluded(p)
  {
    if ws != [] {
      UnexcludedMembers(ws[1..], p);
    }
  }

  /** An entry survives pruning exactly when it was walked and has no `.git`
      component: nothing at or beneath a `.git` directory is processed. */
  lemma PrunedMembers(ws: seq<Path>, p: Path)
    ensures p in Pruned(ws) <==> p in ws && GitDir !in p
  {
    PrunedIsUnexcluded(ws);
    UnexcludedMembers(ws, p);
  }

  /** What one walked entry contributes: nothing for a directory, and the file's
      output otherwise. */
  function EntryOutput(env: Env, p: Path): string
  {
    if IsDir(env, p) then "" else FileOutput(env, p)
  }

  function EntryWriter(env: Env): Path -> string
  {
    p => EntryOutput(env, p)
  }

  function FileWriter(env: Env): Path -> string
  {
    p => FileOutput(env, p)
  }

  /** What processing the directory `dir` appends to the output document. */
  function DirectoryOutput(env: Env, dir: Path): string
  {
    Concat(EntryWriter(env), Pruned(env.walk(dir)))
  }

  /** Reference definition: the walked entries handed to file processing, those
      that are neither excluded nor directories, in walk order. */
  function Candidates(env: Env, ws: seq<Path>): (r: seq<Path>)
  {
    if ws == [] then []
    else (if IsExcluded(ws[0]) || IsDir(env, ws[0]) then [] else [ws[0]]) + Candidates(env, ws[1..])
  }

  lemma {:induction false} CandidatesMembers(env: Env, ws: seq<Path>, p: Path)
    ensures p in Candidates(env, ws) <==> p in ws && GitDir !in p && !IsDir(env, p)
  {
    if ws != [] {
      CandidatesMembers(env, ws[1..], p);
    }
  }

  lemma {:induction false} UnexcludedOutput(env: Env, ws: seq<Path>)
    ensures Concat(EntryWriter(env), Unexcluded(ws)) == Concat(FileWriter(env), Candidates(env, ws))
  {
    if ws != [] {
      var head := if IsExcluded(ws[0]) then [] else [ws[0]];
      ConcatAppend(EntryWriter(env), head, Unexcluded(ws[1..]));
      var kept := if IsExcluded(ws[0]) || IsDir(env, ws[0]) then [] else [ws[0]];
      ConcatAppend(FileWriter(env), kept, Candidates(env, ws[1..]));
      UnexcludedOutput(env, ws[1..]);
    }
  }

  /** A directory contributes the outputs of the files its walk reaches that are
      neither directories nor at or beneath an excluded component, in walk order. */
  lemma DirectoryOutputIsCandidates(env: Env, dir: Path)
    ensures DirectoryOutput(env, dir) == Concat(FileWriter(env), Candidates(env, env.walk(dir)))
  {
    PrunedIsUnexcluded(env.walk(dir));
    UnexcludedOutput(env, env.walk(dir));
  }

  /** A walk from `root` yields only paths beneath `root`. */
  ghost predicate WalkedUnder(root: Path, ws: seq<Path>)
  {
    forall p :: p in ws ==> root <= p
  }

  lemma {:induction false} AllExcluded(root: Path, ws: seq<Path>)
    requires IsExcluded(root) && WalkedUnder(root, ws)
    ensures Unexcluded(ws) == []
  {
    if ws != [] {
      assert ws[0] in ws;
      assert root + ws[0][|root|..] == ws[0];
      ExcludedExtends(root, ws[0][|root|..]);
      forall p | p in ws[1..] ensures root <= p {
        assert p in ws;
      }
      AllExcluded(root, ws[1..]);
    }
  }

  /** Walking a directory that has a `.git` component itself emits nothing: the
      filter applies to the root of the walk too. */
  lemma ExcludedRootEmitsNothing(env: Env, dir: Path)
    requires GitDir in dir && WalkedUnder(dir, env.walk(dir))
    ensures DirectoryOutput(env, dir) == ""
  {
    PrunedIsUnexcluded(env.walk(dir));
    AllExcluded(dir, env.walk(dir));
  }

  /** Processes a directory: every entry of the pruned walk that is not a
      directory goes to file processing, whose errors are reported and skipped. */
  method ProcessDirectory(env: Env, dir: Path, output: OutputFile)
    modifies output
    ensures output.contents == old(output.contents) + DirectoryOutput(env, dir)
  {
    var entries := Pruned(env.walk(dir));
    for i := 0 to |entries|
      invariant output.contents == old(output.contents) + Concat(EntryWriter(env), entries[..i])
    {
      ConcatStep(old(output.contents), EntryWriter(env), entries, i);
      var path := entries[i];
      if IsDir(env, path) {
        continue;
      }
      var result := ProcessFile(env, path, output);
    }
    assert entries[..|entries|] == entries;
  }
}
