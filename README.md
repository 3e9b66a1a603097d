# folder_to_text, modelled in Dafny

`folder_to_text` takes one or more paths on the command line and writes
`output.txt` in the working directory. The file holds one block per text file
found under those paths:

```
<label>
content
</label>

```

The label is the file's path relative to the working directory when the file
lies beneath it, and the path as given otherwise. The program
walks directories recursively. It prunes every subtree at a `.git` component.
It samples the first bytes of each file and classifies them with a
content-type heuristic. It keeps only UTF-8 (with or without a byte-order
mark), UTF-16LE and UTF-16BE files that also decode whole as UTF-8.

The model has one Dafny module per part of the program:

- `Content`: the content types and the text test.
- `Paths`: paths as sequences of components, the `.git` exclusion test,
  component-wise prefix stripping and the display label.
- `Framing`: the block written for one file, and reading a block back.
- `FileSystem`: the environment of a run. This is a snapshot of the
  filesystem as a map from paths to nodes, plus the working directory, the
  content inspector and the walker, all taken as given.
- `Emitter`: processing one file. `OutputFile` is a class whose `contents`
  only grows. `ProcessFile` is a method proved against the function
  `FileOutput`.
- `Walker`: pruning the walk at excluded entries. `ProcessDirectory` is a
  loop proved against `DirectoryOutput`.
- `Driver`: the argument loop, `Run`, proved against `RunOutput`.
- `Sequences`: concatenating per-element output, used by both loops.
- `Scenarios`: one worked run over a small tree.

Three notes on what the code does:

- The working directory is looked up after the text check and before the
  whole file is read. When that lookup fails, `process_file` returns an error.
  Its caller reports the error and goes on with the next entry, so nothing is
  written for that file.
- `process_directory` can never fail, because the walker's errors are
  dropped. The error branch for directories in `main` is therefore never
  taken.
- A file named directly as an argument is processed even when its path has a
  `.git` component. Only the walk applies the exclusion test.

## Model

| member | source | states |
|---|---|---|
| `Content.IsText` | src/main.rs:150-159 | Accepts exactly UTF-8, UTF-8 with BOM, UTF-16LE and UTF-16BE. Binary, UTF-32LE and UTF-32BE are rejected. |
| `Paths.IsExcluded` | src/main.rs:134-148 | A path is excluded iff one whole component is exactly the UTF-8 name `.git`. The match is case-sensitive, and a component that is not valid UTF-8 never matches. |
| `Paths.ExcludedExtends` | src/main.rs:135-147 | Every extension of an excluded path is excluded, so everything beneath a `.git` directory is. |
| `Paths.StripPrefix` | src/main.rs:102-105 | Succeeds iff the base is a component-wise prefix of the path. The base followed by the result is then the path. |
| `Paths.Render` | src/main.rs:117-125 | A path that starts at the root is displayed with a leading `/`. In a path of several components that does not start at the root, the first component's text is followed by a `/` separator. The empty path displays as the empty string. |
| `Paths.Label` | src/main.rs:101-105 | When the working directory is a component-wise prefix of the path, the label is the rest of the path after it. Otherwise the label is the path unchanged. |
| `FileSystem.Sample` | src/main.rs:86-97 | The classified bytes are a prefix of the file of at most 512 bytes and at most the file's length. The result is None iff the first read fails. |
| `Emitter.ReadInto` | src/main.rs:86-94 | The first read fills the front of the 512-byte buffer with the file's leading bytes. The count it returns is at most the buffer size and at most the file length. |
| `Emitter.FileOutputCases` | src/main.rs:77-132 | A file adds nothing when it cannot be opened, when its first read fails, when its sample is not text, when the working directory is unknown, or when it does not decode. Otherwise it adds exactly one block: the decoded content verbatim between tags naming its label. |
| `Emitter.ProcessFile` | src/main.rs:77-132 | The output grows by exactly the file's output. The result is an error iff the file is text and the working directory cannot be determined. |
| `Emitter.OutputFile.Create` | src/main.rs:17-19 | Creating the output file truncates it. |
| `Emitter.OutputFile.WriteLine` | src/main.rs:117-128 | A line write appends the text and one line break. |
| `Framing.Block` | src/main.rs:117-128 | A block is the opening tag and a line break, then the content verbatim at offset label + 3, then a line break, the closing tag and a blank line. Its length is the content plus twice the label plus nine. |
| `Framing.UnframeBlock` | src/main.rs:116-128 | Reading back a block under its label yields exactly the framed content. The block is as long as the content plus twice the label plus nine. |
| `Framing.FramingIsAmbiguous` | src/main.rs:121-125 | Content is not escaped. For any label and any two contents, a content made of the first, the end of a block, the start of a block under the same label and the second writes the same text as two separate blocks. |
| `Walker.Pruned` | src/main.rs:55-57 | Pruning at excluded entries keeps only entries that were walked and have no `.git` component. |
| `Walker.SkipUnderExcluded` | src/main.rs:55-57 | Skipping the rest of an excluded directory's subtree loses only excluded entries. |
| `Walker.PrunedIsUnexcluded` | src/main.rs:55-58 | Pruning the walk at each excluded entry keeps exactly the entries that are not excluded, in walk order. |
| `Walker.PrunedMembers` | src/main.rs:55-58 | An entry survives pruning iff the walk yielded it and it has no `.git` component. |
| `Walker.CandidatesMembers` | src/main.rs:55-71 | An entry is handed to file processing iff it was walked, is not excluded and is not a directory. |
| `Walker.DirectoryOutputIsCandidates` | src/main.rs:53-74 | A directory adds the outputs of exactly those entries, in walk order. |
| `Walker.ExcludedRootEmitsNothing` | src/main.rs:55-57 | A directory argument whose own path has a `.git` component adds nothing. The filter also applies to the root of the walk. |
| `Walker.ProcessDirectory` | src/main.rs:53-74 | The output grows by exactly the directory's output. |
| `Driver.ArgOutput` | src/main.rs:25-45 | A missing argument or one that is neither file nor directory adds nothing. A regular file adds its file output. A directory adds the outputs of its walked entries that are neither excluded nor directories, in walk order. |
| `Driver.RunOutputAppend` | src/main.rs:22-46 | Arguments are processed independently and in order. The output for two runs of arguments is the first run's output followed by the second's. |
| `Driver.SkippedArgument` | src/main.rs:25-45 | A missing argument, or one that is neither file nor directory, adds nothing. The arguments around it are processed as if it were absent. |
| `Driver.FileArgument` | src/main.rs:36-41 | A regular-file argument adds exactly that file's output, even when its path has a `.git` component. |
| `Driver.DirectoryArgument` | src/main.rs:30-35 | A directory argument adds the outputs of its walked entries that are neither excluded nor directories, in walk order. |
| `Driver.Run` | src/main.rs:8-50 | With no arguments the exit status is 1 and no output file is created. When the output file cannot be created the status is also 1. Otherwise the status is 0 and a fresh output file holds exactly the run's output. |
| `Scenarios.MixedDirectory` | src/main.rs:53-132 | A directory holding a text file, a binary file and a `.git` directory with a text file in it yields exactly one block, for the text file. |

## Left out

- Real filesystem I/O is not modelled. Each node records the outcomes of `File::open`, the first read and `fs::read_to_string`, and the environment records whether `File::create` succeeds.
- The `content_inspector` heuristic is a parameter of the environment (`Env.inspect`). The model therefore fixes no behaviour for empty or particular samples.
- Strict UTF-8 decoding is an `Option` on each node. Its agreement with the node's bytes is not modelled.
- The first read's count is nondeterministic. A per-node limit stands for it: the read delivers the smallest of that limit, 512 and the file length, so every count the read may return can occur.
- The walker's traversal order, symbolic-link policy and silent dropping of unreadable entries are not modelled. The walk from each directory is a given sequence of paths, the root first.
- Paths.OsName: the model relies on `NotUtf8` holding only byte strings that are not valid UTF-8. The datatype does not enforce this, so a name that decodes must be written `Utf8` for the exclusion test to apply to it.
- Parsing argument strings into components is not modelled. Arguments are given as component sequences, and Windows path prefixes are not represented.
- Paths.Render: the displayed label joins the components with `/` and shows a non-UTF-8 component as one replacement character. It does not keep the original spelling of the path, such as repeated separators or a trailing separator, and it is not the exact lossy rendering.
- Write failures and the partial output they leave are not modelled. Every write succeeds.
- Diagnostics on standard error, the final confirmation line and process exit mechanics are not modelled. The exit status is returned as a number.
- The filesystem is a snapshot taken before the run. If `output.txt` lies inside a walked directory, the program reads its own partly written output; the model does not capture this.
- The working directory is looked up once per file in the code. The model uses one value for the whole run.
