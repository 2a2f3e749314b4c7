/** The output filename: the artist sanitiser and the timestamp prefix. */
module NameProperties {
  import opened Results
  import opened Text
  import opened AudioSplit
  import opened CommandProperties

  /** What the sanitiser does to one character, read off the three
      replacements: spaces and slashes become dashes, a plus becomes `plus`. */
  function SanitiseChar(c: char): string
  {
    if c == ' ' || c == '/' then "-" else if c == '+' then "plus" else [c]
  }

  /** The sanitiser as a single left-to-right pass over the characters. */
  function SanitiseEach(s: string): string
  {
    if |s| == 0 then "" else SanitiseChar(s[0]) + SanitiseEach(s[1..])
  }

  lemma SanitiseOneChar(c: char)
    ensures SanitiseArtist([c]) == SanitiseChar(c)
  {
    assert [c][1..] == "";
    if c == '+' {
      assert ReplaceChar("plus", '/', "-") == "plus";
    }
  }

  /** The three chained replacements act character by character: no
      replacement produces a character a later one rewrites. */
  lemma {:induction false} SanitiseIsCharwise(s: string)
    ensures SanitiseArtist(s) == SanitiseEach(s)
    decreases |s|
  {
    if |s| > 0 {
      var c, rest := s[0], s[1..];
      assert s == [c] + rest;
      var r1a, r1b := ReplaceChar([c], ' ', "-"), ReplaceChar(rest, ' ', "-");
      ReplaceCharConcat([c], rest, ' ', "-");
      var r2a, r2b := ReplaceChar(r1a, '+', "plus"), ReplaceChar(r1b, '+', "plus");
      ReplaceCharConcat(r1a, r1b, '+', "plus");
      ReplaceCharConcat(r2a, r2b, '/', "-");
      assert SanitiseArtist(s) == SanitiseArtist([c]) + SanitiseArtist(rest);
      SanitiseOneChar(c);
      SanitiseIsCharwise(rest);
    }
  }

  /** Sanitising a sanitised name changes nothing. */
  lemma SanitiseIdempotent(s: string)
    ensures SanitiseArtist(SanitiseArtist(s)) == SanitiseArtist(s)
  {
  }

  /** A space between two plain words becomes a dash. */
  lemma SanitiseTwoWords(a: string, b: string)
    requires ' ' !in a && '+' !in a && '/' !in a
    requires ' ' !in b && '+' !in b && '/' !in b
    ensures SanitiseArtist(a + " " + b) == a + "-" + b
  {
    ReplaceCharConcat(a + " ", b, ' ', "-");
    ReplaceCharConcat(a, " ", ' ', "-");
    assert ReplaceChar(" ", ' ', "-") == "-";
    var r := a + "-" + b;
    assert ReplaceChar(a + " " + b, ' ', "-") == r;
    assert '+' !in r && '/' !in r;
  }

  /** `"Artist A"` becomes `"Artist-A"`. */
  lemma SanitiseArtistA()
    ensures SanitiseArtist("Artist A") == "Artist-A"
  {
    SanitiseTwoWords("Artist", "A");
    assert "Artist" + " " + "A" == "Artist A";
    assert "Artist" + "-" + "A" == "Artist-A";
  }

  /** The last word of a segment's command is the quoted file named after
      the recording instant moved by the distance from the parsed reference
      to the segment's start, then the sanitised artist. */
  lemma FileWordOffset(ts: string, seg: Segment, recording: int, format: int -> string, c: string)
    requires SpaceFree(format)
    requires ParseReference(ts).Ok?
    requires SegmentCommand(seg, ParseReference(ts).value, recording, format) == Ok(c)
    ensures TimeToSeconds(seg.start).Ok?
    ensures var w := Split(c, ' ');
      w[|w| - 1] == "\"" + format(recording + (TimeToSeconds(seg.start).value - ParseReference(ts).value))
                    + "_" + SanitiseArtist(seg.artist) + ".mp3" + "\""
  {
    var referenceSeconds := ParseReference(ts).value;
    SegmentCommandArguments(seg, referenceSeconds, recording, format, c);
    var instant := FilenameInstant(TimeToSeconds(seg.start).value, referenceSeconds, recording);
    var stamp := format(instant);
    assert OutputFile(format, instant, seg.artist) == stamp + ("_" + SanitiseArtist(seg.artist) + ".mp3");
    assert "\"" + (stamp + ("_" + SanitiseArtist(seg.artist) + ".mp3")) + "\""
        == "\"" + stamp + "_" + SanitiseArtist(seg.artist) + ".mp3" + "\"";
  }

  /** A segment that starts exactly at the reference timestamp writes to a
      file named after the recording datetime itself. */
  lemma FileWordAtReference(ts: string, seg: Segment, recording: int, format: int -> string, c: string)
    requires SpaceFree(format)
    requires ParseReference(ts).Ok?
    requires TimeToSeconds(seg.start) == ParseReference(ts)
    requires SegmentCommand(seg, ParseReference(ts).value, recording, format) == Ok(c)
    ensures var w := Split(c, ' ');
      w[|w| - 1] == "\"" + format(recording) + "_" + SanitiseArtist(seg.artist) + ".mp3" + "\""
  {
    FileWordOffset(ts, seg, recording, format, c);
  }
}
