/** Writing the script to a file: `save_to_file` and the way the command-line
    entry point calls it. */
module SavedFile {
  import opened Text

  /** `save_to_file`: the lines joined by newlines, with one newline after
      the last. */
  function FileText(lines: seq<string>): (text: string)
    ensures |text| >= 1 && text[|text| - 1] == '\n'
    ensures |lines| >= 1 ==> |lines[0]| < |text| && text[..|lines[0]|] == lines[0]
  {
    Join(lines, "\n") + "\n"
  }

  /** Every saved line appears in the file. */
  lemma FileHoldsEveryLine(lines: seq<string>, k: nat)
    requires k < |lines|
    ensures Contains(FileText(lines), lines[k])
  {
    JoinContainsPart(lines, "\n", k);
    ContainsExtend(Join(lines, "\n"), "\n", lines[k]);
  }

  /** Lines without newlines are read back by splitting the file at
      newlines; the final newline leaves one empty piece at the end. */
  lemma FileSplitsIntoLines(lines: seq<string>)
    requires |lines| >= 1
    requires forall k :: 0 <= k < |lines| ==> '\n' !in lines[k]
    ensures Split(FileText(lines), '\n') == lines + [""]
  {
    SplitJoin(lines, '\n');
    SplitAround(Join(lines, "\n"), '\n', "");
    assert Join(lines, "\n") + "\n" == Join(lines, "\n") + ['\n'] + "";
  }

  /** Iterating over a `str` in Python yields its characters, each as a
      one-character string. */
  function Characters(s: string): (cs: seq<string>)
    ensures |cs| == |s|
    ensures forall i :: 0 <= i < |s| ==> cs[i] == [s[i]]
  {
    if |s| == 0 then [] else [[s[0]]] + Characters(s[1..])
  }

  /** The entry point as written: the finished script, a `str`, is handed
      over where a list of lines is expected, so every character becomes a
      line of its own. */
  function SavedAsWritten(script: string): string
  {
    FileText(Characters(script))
  }

  /** The entry point as intended: the script is saved as one piece. */
  function SavedScript(script: string): (text: string)
    ensures text == script + "\n"
  {
    FileText([script])
  }

  /** A newline follows every character of the script. */
  lemma {:induction false} JoinedCharactersLength(s: string)
    requires |s| >= 1
    ensures |Join(Characters(s), "\n")| == 2 * |s| - 1
    decreases |s|
  {
    if |s| > 1 {
      JoinedCharactersLength(s[1..]);
      assert Characters(s)[1..] == Characters(s[1..]);
    }
  }

  /** Any script of two or more characters comes out with a newline after
      each character: twice as long as its text plus one. */
  lemma SavedAsWrittenDoubles(script: string)
    requires |script| >= 1
    ensures |SavedAsWritten(script)| == 2 * |script|
    ensures |script| >= 2 ==> SavedAsWritten(script) != SavedScript(script)
  {
    JoinedCharactersLength(script);
  }

  /** The smallest case: `"ab"` is saved as `"a\nb\n"`, not `"ab\n"`. */
  lemma SavedAsWrittenExample()
    ensures SavedAsWritten("ab") == "a\nb\n"
    ensures SavedScript("ab") == "ab\n"
  {
    assert Characters("ab") == ["a", "b"] by {
      assert "ab"[1..] == "b";
      assert "b"[1..] == "";
    }
  }
}
