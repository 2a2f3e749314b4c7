/** The pure core of `generate_script`: CSV rows (already split into fields)
    plus a reference timestamp become the text of a bash script holding one
    `ffmpeg` command per accepted segment. */
module AudioSplit {
  import opened Results
  import opened Text
  import opened Decimal

  // ---------------------------------------------------------------- rows

  /** The tuple kept for an accepted row: date, time, artist, start, end. */
  datatype Segment = Segment(date: string, time: string, artist: string, start: string, end: string)

  /** Fewest fields a data row needs to be kept. */
  const MinFields: nat := 5

  function RowSegment(row: seq<string>): Segment
    requires |row| >= MinFields
  {
    Segment(row[0], row[1], row[2], row[3], row[4])
  }

  /** What one data row contributes: its tuple, or nothing when it is short. */
  function RowContribution(row: seq<string>): seq<Segment>
  {
    if |row| >= MinFields then [RowSegment(row)] else []
  }

  /** The tuples of the data rows (no header among them), in row order. */
  function DataSegments(rows: seq<seq<string>>): (segs: seq<Segment>)
    ensures |segs| <= |rows|
  {
    if |rows| == 0 then [] else RowContribution(rows[0]) + DataSegments(rows[1..])
  }

  /** The tuples of a whole CSV: the first row is the title row and is skipped. */
  function SelectSegments(rows: seq<seq<string>>): (segs: seq<Segment>)
    ensures |rows| > 0 ==> |segs| < |rows|
  {
    if |rows| == 0 then [] else DataSegments(rows[1..])
  }

  /** Filtering distributes over concatenation, so row order is kept. */
  lemma {:induction false} DataSegmentsAppend(a: seq<seq<string>>, b: seq<seq<string>>)
    ensures DataSegments(a + b) == DataSegments(a) + DataSegments(b)
    decreases |a|
  {
    if |a| > 0 {
      assert (a + b)[1..] == a[1..] + b;
      DataSegmentsAppend(a[1..], b);
    } else {
      assert a + b == b;
    }
  }

  /** The reading loop: a row counter skips the title row, short rows are
      dropped and every other row is appended as a tuple. */
  method CollectSegments(rows: seq<seq<string>>) returns (data: seq<Segment>)
    ensures data == SelectSegments(rows)
  {
    data := [];
    var i := 0;
    for k := 0 to |rows|
      invariant i == k
      invariant data == (if k == 0 then [] else DataSegments(rows[1..k]))
    {
      i := i + 1;
      if i == 1 {
        continue;
      }
      if |rows[k]| >= MinFields {
        data := data + [RowSegment(rows[k])];
      }
      DataSegmentsAppend(rows[1..k], [rows[k]]);
      assert rows[1..k] + [rows[k]] == rows[1..k + 1];
    }
    if |rows| > 0 {
      assert rows[1..|rows|] == rows[1..];
    }
  }

  // ---------------------------------------------------------------- times

  /** The first number of seconds a `timedelta` cannot hold: its days are
      limited to 999999999. Below it `total_seconds()` is an exact float. */
  const TimedeltaLimit: nat := 86400 * 1000000000

  /** `timedelta(hours=h, minutes=m, seconds=s).total_seconds()`: the
      duration in seconds, or OverflowError when it exceeds the range. */
  function Timedelta(h: nat, m: nat, s: nat): (r: Result<nat>)
    ensures r.Ok? <==> 3600 * h + 60 * m + s < TimedeltaLimit
    ensures r.Err? ==> r.error == OverflowError
  {
    var total := 3600 * h + 60 * m + s;
    if total < TimedeltaLimit then Ok(total) else Err(OverflowError)
  }

  /** `time_to_seconds`: `H:M:S`, `M:S` or `S` in seconds. A string with more
      than three colon-separated fields matches no branch and yields 0. The
      fields are all read before the duration is built, so a non-number
      wins over an out-of-range duration. */
  function TimeToSeconds(t: string): (r: Result<nat>)
    ensures r.Err? ==> r.error != IndexError
  {
    var parts := Split(t, ':');
    if |parts| == 3 then
      var h :- ParseNat(parts[0]);
      var m :- ParseNat(parts[1]);
      var s :- ParseNat(parts[2]);
      Timedelta(h, m, s)
    else if |parts| == 2 then
      var m :- ParseNat(parts[0]);
      var s :- ParseNat(parts[1]);
      Timedelta(0, m, s)
    else if |parts| == 1 then
      var s :- ParseNat(parts[0]);
      Timedelta(0, 0, s)
    else
      Timedelta(0, 0, 0)
  }

  /** The reference `HH:MM:SS`: the first three colon-separated fields are
      read in order, so a non-number raises ValueError before a missing
      field raises IndexError; fields after the third are ignored; the
      duration is built last. */
  function ParseReference(ts: string): (r: Result<nat>)
    ensures r.Ok? ==> |Split(ts, ':')| >= 3 && r.value < TimedeltaLimit
  {
    var parts := Split(ts, ':');
    var h :- ParseNat(parts[0]);
    if |parts| < 2 then Err(IndexError) else
    var m :- ParseNat(parts[1]);
    if |parts| < 3 then Err(IndexError) else
    var s :- ParseNat(parts[2]);
    Timedelta(h, m, s)
  }

  /** `seconds_to_human_time` before formatting: the recording instant moved
      by the segment start's distance from the reference. */
  function FilenameInstant(startSeconds: nat, referenceSeconds: nat, recording: int): int
  {
    recording + (startSeconds - referenceSeconds)
  }

  // ---------------------------------------------------------------- names

  /** `artist.replace(" ", "-").replace("+", "plus").replace("/", "-")`. */
  function SanitiseArtist(artist: string): (r: string)
    ensures ' ' !in r && '+' !in r && '/' !in r
    ensures forall c :: c in artist && c != ' ' && c != '+' && c != '/' ==> c in r
  {
    ReplaceChar(ReplaceChar(ReplaceChar(artist, ' ', "-"), '+', "plus"), '/', "-")
  }

  /** `f"{human_start_time}_{artist_formatted}.mp3"`, with the strftime
      formatter as a parameter. */
  function OutputFile(format: int -> string, instant: int, artist: string): (name: string)
    ensures |name| >= |format(instant)| + 5 && name[|name| - 4..] == ".mp3"
    ensures ' ' !in name[|format(instant)|..] && '/' !in name[|format(instant)|..]
  {
    var rest := "_" + SanitiseArtist(artist) + ".mp3";
    assert ' ' !in rest && '/' !in rest;
    format(instant) + rest
  }

  // ---------------------------------------------------------------- commands

  /** The ffmpeg command line for one segment; `-to` only with an end time. */
  function Command(startSeconds: nat, endSeconds: Option<nat>, outputFile: string): string
  {
    match endSeconds
    case Some(e) =>
      "ffmpeg -i \"$input_file\" -ss " + NatToString(startSeconds) + " -to " + NatToString(e)
      + " -c:a copy \"" + outputFile + "\""
    case None =>
      "ffmpeg -i \"$input_file\" -ss " + NatToString(startSeconds) + " -c:a copy \"" + outputFile + "\""
  }

  /** The end seconds: None for an empty end field, else its parsed time. */
  function EndSeconds(end: string): (r: Result<Option<nat>>)
    ensures end == "" ==> r == Ok(None)
    ensures end != "" ==> (r.Ok? <==> TimeToSeconds(end).Ok?)
    ensures r.Ok? && end != "" ==> r.value == Some(TimeToSeconds(end).value)
  {
    if end != "" then
      var e :- TimeToSeconds(end);
      Ok(Some(e))
    else
      Ok(None)
  }

  /** The command for one accepted tuple (loop body of lines 68-88). */
  function SegmentCommand(seg: Segment, referenceSeconds: nat, recording: int, format: int -> string): (r: Result<string>)
    ensures r.Ok? <==> TimeToSeconds(seg.start).Ok? && EndSeconds(seg.end).Ok?
    ensures r.Err? ==> r.error != IndexError
  {
    var startSeconds :- TimeToSeconds(seg.start);
    var endSeconds :- EndSeconds(seg.end);
    var instant := FilenameInstant(startSeconds, referenceSeconds, recording);
    Ok(Command(startSeconds, endSeconds, OutputFile(format, instant, seg.artist)))
  }

  /** The commands of all tuples, in order; the first failure propagates. */
  function Commands(segs: seq<Segment>, referenceSeconds: nat, recording: int, format: int -> string)
    : (r: Result<seq<string>>)
    ensures r.Ok? <==> forall k :: 0 <= k < |segs| ==> SegmentCommand(segs[k], referenceSeconds, recording, format).Ok?
    ensures r.Ok? ==> |r.value| == |segs|
    ensures r.Ok? ==> forall k :: 0 <= k < |segs| ==>
      SegmentCommand(segs[k], referenceSeconds, recording, format) == Ok(r.value[k])
    ensures r.Err? ==> r.error != IndexError
  {
    if |segs| == 0 then Ok([])
    else
      var c :- SegmentCommand(segs[0], referenceSeconds, recording, format);
      var rest :- Commands(segs[1..], referenceSeconds, recording, format);
      Ok([c] + rest)
  }

  // ---------------------------------------------------------------- script

  /** The four fixed entries that open every script. */
  const Prologue: seq<string> := [
    "#!/bin/bash\n",
    // One comment line, written as two literals so that proofs about its
    // text can take the halves one at a time.
    "# Input audio file " + "(replace with your file path)",
    "input_file=\"$1\"\n\n",
    "if [ -z \"$1\" ]; then\n"
    + "  echo \"Usage: $0 <input_audio_file>\"\n"
    + "  exit 1\n"
    + "fi\n"
  ]

  /** The single entry that closes every script. */
  const Epilogue: string := "\necho \"Splitting completed!\""

  /** `script_lines`: the prologue, one command per tuple, the epilogue. */
  function ScriptEntries(segs: seq<Segment>, referenceSeconds: nat, recording: int, format: int -> string)
    : (r: Result<seq<string>>)
    ensures r.Ok? <==> Commands(segs, referenceSeconds, recording, format).Ok?
    ensures r.Ok? ==> |r.value| == |Prologue| + |segs| + 1
    ensures r.Ok? ==> r.value[..|Prologue|] == Prologue && r.value[|r.value| - 1] == Epilogue
    ensures r.Ok? ==> forall k :: 0 <= k < |segs| ==>
      SegmentCommand(segs[k], referenceSeconds, recording, format) == Ok(r.value[|Prologue| + k])
  {
    var commands :- Commands(segs, referenceSeconds, recording, format);
    Ok(Prologue + commands + [Epilogue])
  }

  /** `generate_script` once the CSV is read: the reference is parsed first,
      then the rows are filtered and turned into commands, and the entries are
      joined with newlines. The recording instant is given as an integer and
      `format` stands for `strftime("%Y-%m-%d_%H%M")`. */
  function GenerateScript(referenceTimestamp: string, recording: int, rows: seq<seq<string>>, format: int -> string)
    : (r: Result<string>)
    ensures ParseReference(referenceTimestamp).Err? ==> r == Err(ParseReference(referenceTimestamp).error)
    ensures ParseReference(referenceTimestamp).Ok? ==>
      (r.Ok? <==> Commands(SelectSegments(rows), ParseReference(referenceTimestamp).value, recording, format).Ok?)
  {
    var referenceSeconds :- ParseReference(referenceTimestamp);
    var entries :- ScriptEntries(SelectSegments(rows), referenceSeconds, recording, format);
    Ok(Join(entries, "\n"))
  }
}
