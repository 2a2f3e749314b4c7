/** What the model gives for the CSV inputs of the repository's own test suite. */
module SuiteExamples {
  import opened Results
  import opened Text
  import opened Decimal
  import opened AudioSplit
  import opened TimeProperties
  import opened NameProperties
  import opened ScriptProperties

  /** The reference timestamp the test suite uses, `01:26:31`. Timestamps
      here are spelled as their fields joined by colons. */
  const Reference: string := "01" + ":" + "26" + ":" + "31"

  /** The well-formed CSV: a title row, a segment with an end time, one
      without (trailing comma), and the blank-looking last line. */
  const ValidRows: seq<seq<string>> := [
    ["date", "time", "artist", "start", "end"],
    ["        2025-02-12", "15:30", "Artist A", "00" + ":" + "05" + ":" + "00", "00" + ":" + "10" + ":" + "00"],
    ["        2025-02-12", "15:40", "Artist B", "00" + ":" + "15" + ":" + "00", ""],
    ["        "]
  ]

  /** The CSV whose rows all miss the end column. */
  const ShortRows: seq<seq<string>> := [
    ["date", "time", "artist", "start"],
    ["        2025-02-12", "15:30", "Artist A", "00" + ":" + "05" + ":" + "00"],
    ["        "]
  ]

  lemma ReferenceSeconds()
    ensures ParseReference(Reference) == Ok(5191)
  {
    assert IsDigits("01") && IsDigits("26") && IsDigits("31");
    DigitsHaveNoColon("01");
    DigitsHaveNoColon("26");
    DigitsHaveNoColon("31");
    SplitThreeFields("01", "26", "31");
    ParseReferenceOfFields(Reference, "01", "26", "31");
    assert ValueOf("01") == 1 && ValueOf("26") == 26 && ValueOf("31") == 31;
  }

  /** `MM` minutes of a clock as an `00:MM:00` field. */
  lemma MinutesField(mm: string, minutes: nat)
    requires IsDigits(mm) && ValueOf(mm) == minutes && minutes < 60
    ensures TimeToSeconds("00" + ":" + mm + ":" + "00") == Ok(60 * minutes)
  {
    assert IsDigits("00") && ValueOf("00") == 0;
    TimeToSecondsThreeFields("00", mm, "00");
  }

  lemma SegmentTimes()
    ensures TimeToSeconds("00" + ":" + "05" + ":" + "00") == Ok(300)
    ensures TimeToSeconds("00" + ":" + "10" + ":" + "00") == Ok(600)
    ensures TimeToSeconds("00" + ":" + "15" + ":" + "00") == Ok(900)
  {
    MinutesField("05", 5);
    MinutesField("10", 10);
    MinutesField("15", 15);
  }

  lemma ValidSegments()
    ensures SelectSegments(ValidRows) == [
      Segment("        2025-02-12", "15:30", "Artist A", "00" + ":" + "05" + ":" + "00", "00" + ":" + "10" + ":" + "00"),
      Segment("        2025-02-12", "15:40", "Artist B", "00" + ":" + "15" + ":" + "00", "")
    ]
  {
    var data := ValidRows[1..];
    assert DataSegments(data[2..]) == [] by {
      assert data[2..] == [["        "]];
      assert data[2..][1..] == [];
    }
    assert DataSegments(data[1..]) == [RowSegment(data[1])] + DataSegments(data[2..]) by {
      assert data[1..][1..] == data[2..];
    }
    assert DataSegments(data) == [RowSegment(data[0])] + DataSegments(data[1..]);
  }

    /** The file name of the first command of the well-formed CSV. */
  function FirstOutputFile(recording: int, format: int -> string): string
  {
    format(recording - 4891) + "_" + "Artist-A" + ".mp3"
  }

/** The first command of the well-formed CSV: from 300 to 600 seconds, into
      a file named after the instant 1 h 21 min 31 s before the recording
      instant and after `Artist-A`. */
  lemma FirstCommand(recording: int, format: int -> string)
    ensures SegmentCommand(SelectSegments(ValidRows)[0], 5191, recording, format)
         == Ok(Command(300, Some(600), FirstOutputFile(recording, format)))
  {
    ValidSegments();
    SegmentTimes();
    SanitiseArtistA();
    var seg := SelectSegments(ValidRows)[0];
    assert EndSeconds(seg.end) == Ok(Some(600));
    CommandOfTimes(seg, 5191, recording, format, 300, Some(600), "Artist-A");
  }

  /** A tuple whose start, end and sanitised artist are known gives the
      command for them. */
  lemma CommandOfTimes(seg: Segment, referenceSeconds: nat, recording: int, format: int -> string,
                       startSeconds: nat, endSeconds: Option<nat>, name: string)
    requires TimeToSeconds(seg.start) == Ok(startSeconds)
    requires EndSeconds(seg.end) == Ok(endSeconds)
    requires SanitiseArtist(seg.artist) == name
    ensures SegmentCommand(seg, referenceSeconds, recording, format)
         == Ok(Command(startSeconds, endSeconds,
                       format(FilenameInstant(startSeconds, referenceSeconds, recording)) + "_" + name + ".mp3"))
  {
    var stamp := format(FilenameInstant(startSeconds, referenceSeconds, recording));
    assert OutputFile(format, FilenameInstant(startSeconds, referenceSeconds, recording), seg.artist)
        == stamp + ("_" + name + ".mp3")
        == stamp + "_" + name + ".mp3";
  }

  /** The second tuple of the well-formed CSV, with no end time, becomes a
      command too. */
  lemma SecondCommandOk(recording: int, format: int -> string)
    ensures |SelectSegments(ValidRows)| == 2
    ensures SegmentCommand(SelectSegments(ValidRows)[1], 5191, recording, format).Ok?
  {
    ValidSegments();
    SegmentTimes();
    var seg := SelectSegments(ValidRows)[1];
    assert TimeToSeconds(seg.start).Ok?;
    assert EndSeconds(seg.end).Ok?;
  }

  /** Two segments that both become commands give two commands, in order. */
  lemma TwoCommands(segs: seq<Segment>, referenceSeconds: nat, recording: int,
                    format: int -> string, first: string)
    requires |segs| == 2
    requires SegmentCommand(segs[0], referenceSeconds, recording, format) == Ok(first)
    requires SegmentCommand(segs[1], referenceSeconds, recording, format).Ok?
    ensures var commands := Commands(segs, referenceSeconds, recording, format);
      commands.Ok? && commands.value[0] == first
  {
  }

  /** Both tuples of the well-formed CSV become commands. */
  lemma ValidCommands(recording: int, format: int -> string)
    ensures var commands := Commands(SelectSegments(ValidRows), 5191, recording, format);
      commands.Ok? && commands.value[0] == Command(300, Some(600), FirstOutputFile(recording, format))
  {
    FirstCommand(recording, format);
    SecondCommandOk(recording, format);
    ValidSegments();
    TwoCommands(SelectSegments(ValidRows), 5191, recording, format,
                Command(300, Some(600), FirstOutputFile(recording, format)));
  }

  /** The well-formed CSV gives a script; its first command is the fifth
      entry. */
  lemma ValidCsvEntries(recording: int, format: int -> string)
    ensures GenerateScript(Reference, recording, ValidRows, format).Ok?
    ensures var entries := ScriptEntries(SelectSegments(ValidRows), 5191, recording, format);
      && entries.Ok?
      && GenerateScript(Reference, recording, ValidRows, format).value == Join(entries.value, "\n")
      && entries.value[4] == Command(300, Some(600), FirstOutputFile(recording, format))
  {
    ReferenceSeconds();
    ValidCommands(recording, format);
  }

  /** The well-formed CSV gives a script with ffmpeg commands, one of which
      writes to a file ending in `Artist-A.mp3`. */
  lemma ValidCsvScript(recording: int, format: int -> string)
    ensures GenerateScript(Reference, recording, ValidRows, format).Ok?
    ensures Contains(GenerateScript(Reference, recording, ValidRows, format).value, "ffmpeg -i")
    ensures Contains(GenerateScript(Reference, recording, ValidRows, format).value, "Artist-A.mp3")
  {
    ValidCsvEntries(recording, format);
    var script := GenerateScript(Reference, recording, ValidRows, format).value;
    var entries := ScriptEntries(SelectSegments(ValidRows), 5191, recording, format).value;
    var first := entries[4];
    JoinContainsPart(entries, "\n", 4);
    FirstCommandText(recording, format, first);
    ContainsTrans(script, first, "ffmpeg -i");
    ContainsTrans(script, first, "Artist-A.mp3");
  }

  lemma FirstCommandText(recording: int, format: int -> string, first: string)
    requires first == Command(300, Some(600), FirstOutputFile(recording, format))
    ensures Contains(first, "ffmpeg -i") && Contains(first, "Artist-A.mp3")
  {
    var before := "ffmpeg -i \"$input_file\" -ss " + NatToString(300) + " -to " + NatToString(600)
                  + " -c:a copy \"" + format(recording - 4891) + "_";
    assert first == before + "Artist-A.mp3" + "\"";
    ContainsMiddle(before, "Artist-A.mp3", "\"");
    CommandIsEntry(300, Some(600), FirstOutputFile(recording, format));
    ContainsPrefix(first, "ffmpeg -i");
  }

  /** The CSV with only four columns gives a script without any ffmpeg
      command. */
  lemma ShortCsvScript(recording: int, format: int -> string)
    ensures GenerateScript(Reference, recording, ShortRows, format).Ok?
    ensures !Contains(GenerateScript(Reference, recording, ShortRows, format).value, "ffmpeg -i")
  {
    ReferenceSeconds();
    ShortRowsGiveNoCommands(Reference, recording, ShortRows, format);
  }
}
