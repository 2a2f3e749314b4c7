/** What one generated command line says: its shell words, its `-ss` and
    `-to` arguments, and its output filename. */
module CommandProperties {
  import opened Results
  import opened Text
  import opened Decimal
  import opened AudioSplit

  /** The words of a command, as the shell splits it at spaces. */
  function CommandWords(startSeconds: nat, endSeconds: Option<nat>, outputFile: string): seq<string>
  {
    ["ffmpeg", "-i", "\"$input_file\"", "-ss", NatToString(startSeconds)]
    + (match endSeconds case Some(e) => ["-to", NatToString(e)] case None => [])
    + ["-c:a", "copy", "\"" + outputFile + "\""]
  }

  lemma DigitsHaveNoSpace(n: nat)
    ensures ' ' !in NatToString(n)
  {
    NatToStringChars(n, ' ');
  }

  /** Five space-free words joined by spaces split back apart. */
  lemma SplitFiveWords(a: string, b: string, c: string, d: string, e: string)
    requires ' ' !in a && ' ' !in b && ' ' !in c && ' ' !in d && ' ' !in e
    ensures Split(a + " " + b + " " + c + " " + d + " " + e, ' ') == [a, b, c, d, e]
  {
    SplitNoSeparator(a, ' ');
    SplitSnoc(a, ' ', b);
    SplitSnoc(a + " " + b, ' ', c);
    SplitSnoc(a + " " + b + " " + c, ' ', d);
    SplitSnoc(a + " " + b + " " + c + " " + d, ' ', e);
  }

  /** Appending three space-free words after a space adds them as words. */
  lemma SplitThreeMore(x: string, a: string, b: string, c: string)
    requires ' ' !in a && ' ' !in b && ' ' !in c
    ensures Split(x + " " + a + " " + b + " " + c, ' ') == Split(x, ' ') + [a, b, c]
  {
    SplitSnoc(x, ' ', a);
    SplitSnoc(x + " " + a, ' ', b);
    SplitSnoc(x + " " + a + " " + b, ' ', c);
  }

  /** Appending two space-free words after a space adds them as words. */
  lemma SplitTwoMore(x: string, a: string, b: string)
    requires ' ' !in a && ' ' !in b
    ensures Split(x + " " + a + " " + b, ' ') == Split(x, ' ') + [a, b]
  {
    SplitSnoc(x, ' ', a);
    SplitSnoc(x + " " + a, ' ', b);
  }

  lemma FixedWordsHaveNoSpace()
    ensures ' ' !in "ffmpeg" && ' ' !in "-i" && ' ' !in "\"$input_file\"" && ' ' !in "-ss"
    ensures ' ' !in "-to" && ' ' !in "-c:a" && ' ' !in "copy"
  {
  }

  /** The fixed parts of the command template, cut into words. */
  lemma TemplateWords()
    ensures "ffmpeg -i \"$input_file\" -ss " == "ffmpeg" + " " + "-i" + " " + "\"$input_file\"" + " " + "-ss" + " "
    ensures " -to " == " " + "-to" + " "
    ensures " -c:a copy \"" == " " + "-c:a" + " " + "copy" + " " + "\""
  {
  }

  lemma SpacedWithEnd(n: string, en: string, o: string)
    ensures "ffmpeg -i \"$input_file\" -ss " + n + " -to " + en + " -c:a copy \"" + o + "\""
         == "ffmpeg" + " " + "-i" + " " + "\"$input_file\"" + " " + "-ss" + " " + n
            + " " + "-to" + " " + en + " " + "-c:a" + " " + "copy" + " " + ("\"" + o + "\"")
  {
    TemplateWords();
  }

  lemma SpacedWithoutEnd(n: string, o: string)
    ensures "ffmpeg -i \"$input_file\" -ss " + n + " -c:a copy \"" + o + "\""
         == "ffmpeg" + " " + "-i" + " " + "\"$input_file\"" + " " + "-ss" + " " + n
            + " " + "-c:a" + " " + "copy" + " " + ("\"" + o + "\"")
  {
    TemplateWords();
  }

  /** Splitting a command at spaces gives back exactly its arguments,
      provided the output filename holds no space. */
  lemma CommandSplitsIntoWords(startSeconds: nat, endSeconds: Option<nat>, outputFile: string)
    requires ' ' !in outputFile
    ensures Split(Command(startSeconds, endSeconds, outputFile), ' ') == CommandWords(startSeconds, endSeconds, outputFile)
  {
    var n := NatToString(startSeconds);
    var q := "\"" + outputFile + "\"";
    DigitsHaveNoSpace(startSeconds);
    FixedWordsHaveNoSpace();
    assert ' ' !in q;
    var head := "ffmpeg" + " " + "-i" + " " + "\"$input_file\"" + " " + "-ss" + " " + n;
    SplitFiveWords("ffmpeg", "-i", "\"$input_file\"", "-ss", n);
    match endSeconds {
      case Some(e) =>
        var en := NatToString(e);
        DigitsHaveNoSpace(e);
        SpacedWithEnd(n, en, outputFile);
        SplitTwoMore(head, "-to", en);
        SplitThreeMore(head + " " + "-to" + " " + en, "-c:a", "copy", q);
      case None =>
        SpacedWithoutEnd(n, outputFile);
        SplitThreeMore(head, "-c:a", "copy", q);
    }
  }

  /** A formatter whose output never holds a space, as `%Y-%m-%d_%H%M`. */
  ghost predicate SpaceFree(format: int -> string)
  {
    forall t :: ' ' !in format(t)
  }

  /** The quoted filename of a segment never holds a space. */
  lemma OutputFileHasNoSpace(format: int -> string, instant: int, artist: string)
    requires SpaceFree(format)
    ensures ' ' !in OutputFile(format, instant, artist)
  {
    assert ' ' !in format(instant);
  }

  /** What each word of a command line carries: the fixed words, the start
      offset, the end offset exactly when there is one, and the quoted output
      file last. */
  lemma CommandWordsMeaning(startSeconds: nat, endSeconds: Option<nat>, outputFile: string)
    ensures var w := CommandWords(startSeconds, endSeconds, outputFile);
      && |w| == (if endSeconds.None? then 8 else 10)
      && w[0] == "ffmpeg" && w[3] == "-ss"
      && ParseNat(w[4]) == Ok(startSeconds)
      && ("-to" in w <==> endSeconds.Some?)
      && (endSeconds.Some? ==> w[5] == "-to" && ParseNat(w[6]) == Ok(endSeconds.value))
      && w[|w| - 1] == "\"" + outputFile + "\""
  {
    var w := CommandWords(startSeconds, endSeconds, outputFile);
    ParseNatToString(startSeconds);
    var n := NatToString(startSeconds);
    assert n[0] != '-';
    match endSeconds {
      case Some(e) =>
        ParseNatToString(e);
        assert NatToString(e)[0] != '-';
        assert w[5] == "-to";
      case None =>
        assert w == ["ffmpeg", "-i", "\"$input_file\"", "-ss", n, "-c:a", "copy", "\"" + outputFile + "\""];
        assert "-to" !in w by {
          forall k | 0 <= k < |w|
            ensures w[k] != "-to"
          {
            if k == 4 {
              assert w[4][0] != "-to"[0];
            } else if k == 7 {
              assert w[7][0] != "-to"[0];
            }
          }
        }
    }
  }

  /** What the shell sees in the command of one segment: `-ss` followed by
      the start in seconds, `-to` followed by the end in seconds exactly when
      the end field is non-empty, and the quoted output filename last. */
  lemma SegmentCommandArguments(seg: Segment, referenceSeconds: nat, recording: int,
                                format: int -> string, c: string)
    requires SpaceFree(format)
    requires SegmentCommand(seg, referenceSeconds, recording, format) == Ok(c)
    ensures var w := Split(c, ' ');
      && |w| == (if seg.end == "" then 8 else 10)
      && w[0] == "ffmpeg" && w[3] == "-ss"
      && ParseNat(w[4]) == TimeToSeconds(seg.start)
      && ("-to" in w <==> seg.end != "")
      && (seg.end != "" ==> w[5] == "-to" && ParseNat(w[6]) == TimeToSeconds(seg.end))
      && w[|w| - 1] == "\"" + OutputFile(format,
           FilenameInstant(TimeToSeconds(seg.start).value, referenceSeconds, recording), seg.artist) + "\""
  {
    var startSeconds := TimeToSeconds(seg.start).value;
    var endSeconds := EndSeconds(seg.end).value;
    var o := OutputFile(format, FilenameInstant(startSeconds, referenceSeconds, recording), seg.artist);
    assert c == Command(startSeconds, endSeconds, o);
    OutputFileHasNoSpace(format, FilenameInstant(startSeconds, referenceSeconds, recording), seg.artist);
    CommandSplitsIntoWords(startSeconds, endSeconds, o);
    CommandWordsMeaning(startSeconds, endSeconds, o);
  }
}
