/** The block written for one accepted file, and reading it back. */
module Framing {
  import opened Wrappers

  function OpenTag(tag: string): string { "<" + tag + ">" }

  function CloseTag(tag: string): string { "</" + tag + ">" }

  /** What precedes the content in a block: the opening tag and its line break. */
  function Head(tag: string): string { OpenTag(tag) + "\n" }

  /** What follows the content in a block: the line break ending the content,
      the closing tag, its line break and one blank line. */
  function Tail(tag: string): string { "\n" + CloseTag(tag) + "\n\n" }

  /** One block of the output document: the content verbatim between the tags,
      with no escaping. */
  function Block(tag: string, content: string): (r: string)
    ensures |r| == |content| + 2 * |tag| + 9
    ensures r[..|tag| + 3] == OpenTag(tag) + "\n"
    ensures r[|tag| + 3..|tag| + 3 + |content|] == content
    ensures r[|tag| + 3 + |content|..] == "\n" + CloseTag(tag) + "\n\n"
  {
    var r := Head(tag) + content + Tail(tag);
    assert r[..|tag| + 3] == Head(tag);
    assert r[|tag| + 3..|tag| + 3 + |content|] == content;
    assert r[|tag| + 3 + |content|..] == Tail(tag);
    r
  }

  /** Writing the opening tag, the content and the closing tag followed by a
      blank line, each as one line after `prefix`, appends exactly one block. */
  lemma BlockLines(prefix: string, tag: string, content: string)
    ensures prefix + OpenTag(tag) + "\n" + content + "\n" + (CloseTag(tag) + "\n") + "\n"
            == prefix + Block(tag, content)
  {
  }

  /** Reads back the content of a block written under the label `tag`. */
  function Unframe(tag: string, s: string): Option<string>
  {
    var h, t := Head(tag), Tail(tag);
    if |h| + |t| <= |s| && s[..|h|] == h && s[|s| - |t|..] == t
    then Some(s[|h|..|s| - |t|])
    else None
  }

  /** Round trip: a block reads back to exactly the content that was framed,
      and the block is as long as the content plus twice the label plus nine. */
  lemma {:induction false} UnframeBlock(tag: string, content: string)
    ensures |Block(tag, content)| == |content| + 2 * |tag| + 9
    ensures Unframe(tag, Block(tag, content)) == Some(content)
  {
    var h, t, b := Head(tag), Tail(tag), Block(tag, content);
    assert b == h + content + t;
    assert b[..|h|] == h;
    assert b[|b| - |t|..] == t;
    assert b[|h|..|b| - |t|] == content;
  }

  /** The framing has no escaping: a content that holds, between two parts, the
      end of a block and the start of another under the same label writes the same
      text as two separate blocks holding those parts. */
  lemma FramingIsAmbiguous(tag: string, c1: string, c2: string)
    ensures Block(tag, c1 + Tail(tag) + Head(tag) + c2) == Block(tag, c1) + Block(tag, c2)
  {
    assert Block(tag, c1 + Tail(tag) + Head(tag) + c2)
        == Head(tag) + c1 + Tail(tag) + Head(tag) + c2 + Tail(tag);
  }
}
