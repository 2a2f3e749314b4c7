/** What the whole generated script holds: which rows become commands, in
    what order, and what surrounds them. */
module ScriptProperties {
  import opened Results
  import opened Text
  import opened Decimal
  import opened AudioSplit
  import opened TimeProperties
  import opened CommandProperties

  // ---------------------------------------------------------------- rows

  /** The title row never yields a tuple, whatever fields it holds. */
  lemma HeaderIgnored(h1: seq<string>, h2: seq<string>, data: seq<seq<string>>)
    ensures SelectSegments([h1] + data) == DataSegments(data)
    ensures SelectSegments([h1] + data) == SelectSegments([h2] + data)
    ensures SelectSegments([h1]) == []
  {
    assert ([h1] + data)[1..] == data;
    assert ([h2] + data)[1..] == data;
  }

  /** Row `j` (after the title) contributes its tuple, or nothing when it
      is short, between the tuples of the rows before it and after it. */
  lemma RowContributes(rows: seq<seq<string>>, j: nat)
    requires 1 <= j < |rows|
    ensures SelectSegments(rows)
         == DataSegments(rows[1..j]) + RowContribution(rows[j]) + DataSegments(rows[j + 1..])
  {
    assert rows[1..] == rows[1..j] + ([rows[j]] + rows[j + 1..]);
    DataSegmentsAppend(rows[1..j], [rows[j]] + rows[j + 1..]);
    DataSegmentsAppend([rows[j]], rows[j + 1..]);
    assert DataSegments([rows[j]]) == RowContribution(rows[j]) + DataSegments([]);
  }

  /** Rows with fewer than five fields contribute nothing. */
  lemma {:induction false} ShortRowsDropped(data: seq<seq<string>>)
    requires forall j :: 0 <= j < |data| ==> |data[j]| < MinFields
    ensures DataSegments(data) == []
    decreases |data|
  {
    if |data| > 0 {
      ShortRowsDropped(data[1..]);
    }
  }

  /** When every row is wide enough, row `k` yields tuple `k`. */
  lemma {:induction false} WideRowsKept(data: seq<seq<string>>)
    requires forall j :: 0 <= j < |data| ==> |data[j]| >= MinFields
    ensures |DataSegments(data)| == |data|
    ensures forall k :: 0 <= k < |data| ==> DataSegments(data)[k] == RowSegment(data[k])
    decreases |data|
  {
    if |data| > 0 {
      WideRowsKept(data[1..]);
    }
  }

  // ---------------------------------------------------------------- entries

  /** An entry of the script that runs ffmpeg. */
  predicate IsCommandEntry(e: string)
  {
    StartsWith(e, "ffmpeg -i")
  }

  /** Every command line runs ffmpeg. */
  lemma CommandIsEntry(startSeconds: nat, endSeconds: Option<nat>, outputFile: string)
    ensures IsCommandEntry(Command(startSeconds, endSeconds, outputFile))
  {
    match endSeconds {
      case Some(e) =>
        SpacedWithEnd(NatToString(startSeconds), NatToString(e), outputFile);
      case None =>
        SpacedWithoutEnd(NatToString(startSeconds), outputFile);
    }
  }

  lemma SegmentCommandIsEntry(seg: Segment, referenceSeconds: nat, recording: int,
                              format: int -> string, c: string)
    requires SegmentCommand(seg, referenceSeconds, recording, format) == Ok(c)
    ensures IsCommandEntry(c)
  {
    var startSeconds := TimeToSeconds(seg.start).value;
    var o := OutputFile(format, FilenameInstant(startSeconds, referenceSeconds, recording), seg.artist);
    CommandIsEntry(startSeconds, EndSeconds(seg.end).value, o);
  }

  /** None of the fixed entries runs ffmpeg. */
  lemma FixedEntriesAreNotCommands()
    ensures forall k :: 0 <= k < |Prologue| ==> !IsCommandEntry(Prologue[k])
    ensures !IsCommandEntry(Epilogue)
  {
    assert Prologue[0][0] == '#';
    assert Prologue[1][0] == '#';
    assert Prologue[2][0] == 'i';
    assert Prologue[3][0] == 'i';
    assert Epilogue[0] == '\n';
  }

  lemma CommentEntryNoDoubleF()
    ensures NoDouble(Prologue[1], 'f')
  {
    var a, b := "# Input audio " + "f" + "ile ", "(replace with your " + "f" + "ile path)";
    assert Prologue[1] == a + b;
    NoDoubleAround("# Input audio ", 'f', "ile ");
    NoDoubleAround("(replace with your ", 'f', "ile path)");
    NoDoubleConcat(a, b, 'f');
  }

  lemma AssignmentEntryNoDoubleF()
    ensures NoDouble(Prologue[2], 'f')
  {
    assert Prologue[2] == "input_" + "f" + "ile=\"$1\"\n\n";
    NoDoubleAround("input_", 'f', "ile=\"$1\"\n\n");
  }

  lemma TestLineNoDoubleF()
    ensures NoDouble("if [ -z \"$1\" ]; then\n", 'f')
  {
    assert "if [ -z \"$1\" ]; then\n" == "i" + "f" + " [ -z \"$1\" ]; then\n";
    NoDoubleAround("i", 'f', " [ -z \"$1\" ]; then\n");
  }

  lemma EchoLineNoDoubleF()
    ensures NoDouble("  echo \"Usage: $0 <input_audio_file>\"\n", 'f')
  {
    assert "  echo \"Usage: $0 <input_audio_file>\"\n" == "  echo \"Usage: $0 <input_audio_" + "f" + "ile>\"\n";
    NoDoubleAround("  echo \"Usage: $0 <input_audio_", 'f', "ile>\"\n");
  }

  lemma ExitLinesNoDoubleF()
    ensures NoDouble("  exit 1\n" + "fi\n", 'f')
  {
    assert "  exit 1\n" + "fi\n" == "  exit 1\n" + "f" + "i\n";
    NoDoubleAround("  exit 1\n", 'f', "i\n");
  }

  lemma UsageEntryNoDoubleF()
    ensures NoDouble(Prologue[3], 'f')
  {
    var a, b, d := "if [ -z \"$1\" ]; then\n", "  echo \"Usage: $0 <input_audio_file>\"\n", "  exit 1\n" + "fi\n";
    assert Prologue[3] == a + b + d;
    TestLineNoDoubleF();
    EchoLineNoDoubleF();
    ExitLinesNoDoubleF();
    NoDoubleConcat(a, b, 'f');
    NoDoubleConcat(a + b, d, 'f');
  }

  /** No fixed entry holds two neighbouring `f`s. */
  lemma FixedEntriesNoDoubleF()
    ensures forall k :: 0 <= k < |Prologue| ==> NoDouble(Prologue[k], 'f')
    ensures NoDouble(Epilogue, 'f')
  {
    assert 'f' !in Prologue[0] && 'f' !in Epilogue;
    CommentEntryNoDoubleF();
    AssignmentEntryNoDoubleF();
    UsageEntryNoDoubleF();
  }

  /** The script text of a CSV without usable rows holds no `ffmpeg -i`
      anywhere, not even across entry boundaries. */
  lemma FixedTextHasNoCommand()
    ensures !Contains(Join(Prologue + [Epilogue], "\n"), "ffmpeg -i")
  {
    FixedEntriesNoDoubleF();
    var fixed := Prologue + [Epilogue];
    assert forall k :: 0 <= k < |fixed| ==> NoDouble(fixed[k], 'f');
    NoDoubleJoin(fixed, "\n", 'f');
    NoDoubleExcludes(Join(fixed, "\n"), "ffmpeg -i", 'f');
  }

  /** Of the `5 + N` entries of a script exactly the `N` commands run
      ffmpeg; the four prologue entries and the epilogue do not. */
  lemma CommandEntriesArePositions(segs: seq<Segment>, referenceSeconds: nat, recording: int,
                                   format: int -> string, entries: seq<string>)
    requires ScriptEntries(segs, referenceSeconds, recording, format) == Ok(entries)
    ensures forall k :: 0 <= k < |entries| ==> (IsCommandEntry(entries[k]) <==> 4 <= k < 4 + |segs|)
  {
    FixedEntriesAreNotCommands();
    forall k | 0 <= k < |entries|
      ensures IsCommandEntry(entries[k]) <==> 4 <= k < 4 + |segs|
    {
      if k < 4 {
        assert entries[k] == entries[..4][k] == Prologue[k];
      } else if k < 4 + |segs| {
        SegmentCommandIsEntry(segs[k - 4], referenceSeconds, recording, format, entries[k]);
      }
    }
  }

  /** A script holds `ffmpeg -i` exactly when some data row was accepted:
      the fixed text never holds it, and every command starts with it. */
  lemma ScriptHasCommandIffSegments(ts: string, recording: int, rows: seq<seq<string>>,
                                    format: int -> string, script: string)
    requires GenerateScript(ts, recording, rows, format) == Ok(script)
    ensures Contains(script, "ffmpeg -i") <==> |SelectSegments(rows)| > 0
  {
    var referenceSeconds := ParseReference(ts).value;
    var segs := SelectSegments(rows);
    var entries := ScriptEntries(segs, referenceSeconds, recording, format).value;
    assert script == Join(entries, "\n");
    if |segs| == 0 {
      var commands := Commands(segs, referenceSeconds, recording, format).value;
      assert commands == [];
      assert entries == Prologue + [Epilogue] by {
        assert entries == Prologue + commands + [Epilogue];
      }
      FixedTextHasNoCommand();
    } else {
      SegmentCommandIsEntry(segs[0], referenceSeconds, recording, format, entries[4]);
      ContainsPrefix(entries[4], "ffmpeg -i");
      JoinContainsPart(entries, "\n", 4);
      ContainsTrans(script, entries[4], "ffmpeg -i");
    }
  }

  /** When no data row has five fields the script holds no command at all:
      it is the prologue followed by the epilogue. */
  lemma ShortRowsGiveNoCommands(ts: string, recording: int, rows: seq<seq<string>>, format: int -> string)
    requires ParseReference(ts).Ok?
    requires forall j :: 1 <= j < |rows| ==> |rows[j]| < MinFields
    ensures GenerateScript(ts, recording, rows, format) == Ok(Join(Prologue + [Epilogue], "\n"))
    ensures !Contains(GenerateScript(ts, recording, rows, format).value, "ffmpeg -i")
  {
    FixedTextHasNoCommand();
    if |rows| > 0 {
      ShortRowsDropped(rows[1..]);
    }
    assert Prologue + [] + [Epilogue] == Prologue + [Epilogue];
  }

  /** The title row has no influence on the script. */
  lemma HeaderNeverCommand(ts: string, recording: int, h1: seq<string>, h2: seq<string>,
                           data: seq<seq<string>>, format: int -> string)
    ensures GenerateScript(ts, recording, [h1] + data, format) == GenerateScript(ts, recording, [h2] + data, format)
  {
    HeaderIgnored(h1, h2, data);
  }

  /** A reference that does not parse fails the whole script with its error. */
  lemma InvalidReferenceScript(recording: int, rows: seq<seq<string>>, format: int -> string)
    ensures GenerateScript("invalid:timestamp", recording, rows, format) == Err(ValueError)
  {
    InvalidReference();
  }
}
