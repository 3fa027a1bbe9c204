/** Line truncation for recipe previews: at most `maxLines` lines of the
    content, then a line of five dots. The list pages call it with 3. */
module Utils {
  import opened Text

  /** What a cut preview ends with: a line break and five dots. */
  const Ellipsis: string := "\n....."

  /** `content` itself when it has at most `maxLines` lines, otherwise its
      first `maxLines` lines followed by `Ellipsis`. */
  function TruncateContent(content: string, maxLines: nat): (r: string)
    ensures |Split(content, NewLine)| <= maxLines ==> r == content
    ensures |Split(content, NewLine)| > maxLines ==>
      |r| >= |Ellipsis| && r[|r| - |Ellipsis|..] == Ellipsis &&
      |r| - |Ellipsis| <= |content| && r[..|r| - |Ellipsis|] == content[..|r| - |Ellipsis|]
  {
    var lines := Split(content, NewLine);
    if |lines| <= maxLines then content
    else
      JoinedPiecesArePrefix(content, NewLine, maxLines);
      var kept := Join(lines[..maxLines], NewLine);
      assert (kept + Ellipsis)[..|kept|] == kept;
      kept + Ellipsis
  }

  /** A cut preview, split into lines, is the content's first `maxLines` lines
      and then the line of dots; with at least one line kept, a preview never
      has more than `maxLines + 1` lines. */
  lemma TruncatedLines(content: string, maxLines: nat)
    requires maxLines >= 1
    ensures |Split(content, NewLine)| > maxLines ==>
      Split(TruncateContent(content, maxLines), NewLine) == Split(content, NewLine)[..maxLines] + ["....."]
    ensures |Split(TruncateContent(content, maxLines), NewLine)| <= maxLines + 1
  {
    var lines := Split(content, NewLine);
    if |lines| > maxLines {
      var kept := lines[..maxLines];
      JoinAppend(kept, ".....", NewLine);
      assert Ellipsis == [NewLine] + ".....";
      assert TruncateContent(content, maxLines) == Join(kept + ["....."], NewLine);
      SplitJoin(kept + ["....."], NewLine);
    }
  }

  /** With no line kept the preview is the bare `Ellipsis`, which has two lines. */
  lemma TruncateToNothing(content: string)
    ensures TruncateContent(content, 0) == Ellipsis
    ensures Split(Ellipsis, NewLine) == ["", "....."]
  {
    assert Join(["", "....."], NewLine) == Ellipsis;
    SplitJoin(["", "....."], NewLine);
  }

  /** Truncating a preview again with the same bound changes nothing. */
  lemma TruncateIdempotent(content: string, maxLines: nat)
    ensures TruncateContent(TruncateContent(content, maxLines), maxLines) == TruncateContent(content, maxLines)
  {
    var once := TruncateContent(content, maxLines);
    if maxLines == 0 {
      TruncateToNothing(content);
      TruncateToNothing(once);
    } else if |Split(content, NewLine)| > maxLines {
      TruncatedLines(content, maxLines);
      var lines := Split(content, NewLine);
      assert (lines[..maxLines] + ["....."])[..maxLines] == lines[..maxLines];
    }
  }
}
