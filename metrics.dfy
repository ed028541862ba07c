/** The RTTM reader and the per-file evaluation loop of
    metrics_calculation.py. File contents are passed in (reading a file is
    I/O); the conversion of a text field to a number is an abstract
    `parseFloat` that fails on malformed text, as Python's `float` raises. */
module Metrics {
  import opened Common
  import opened Annotations
  import opened Timelines

  /** What opening a file yields: its lines (each possibly ending in a newline), or an error. */
  datatype FileContent = Unreadable | Lines(lines: seq<string>)

  /** The effect of one line on the annotation being read. */
  datatype LineReading = Skipped | Read(track: Track) | Failed

  const SpeakerTag := "SPEAKER"

  /** metrics_calculation.py:17-24: lines not starting with "SPEAKER" are ignored; for the
      others the whitespace-separated fields 3 and 4 are the onset and the duration and
      field 7 is the speaker. Too few fields or a number that does not parse raises. */
  function ReadLine(line: string, parseFloat: string -> Option<real>): (r: LineReading)
    ensures r.Skipped? <==> !StartsWith(line, SpeakerTag)
    ensures r.Failed? <==>
      var parts := Words(Strip(line));
      StartsWith(line, SpeakerTag) && (|parts| < 8 || parseFloat(parts[3]).None? || parseFloat(parts[4]).None?)
    ensures r.Read? ==>
      var parts := Words(Strip(line));
      && |parts| >= 8
      && parseFloat(parts[3]) == Some(r.track.segment.start)
      && parseFloat(parts[4]) == Some(r.track.segment.end - r.track.segment.start)
      && r.track.speaker == parts[7]
  {
    if !StartsWith(line, SpeakerTag) then Skipped
    else
      var parts := Words(Strip(line));
      if |parts| < 8 then Failed
      else
        match (parseFloat(parts[3]), parseFloat(parts[4]))
        case (Some(start), Some(duration)) => Read(Track(Segment(start, start + duration), parts[7]))
        case _ => Failed
  }

  /** The tracks of the lines in order, or None as soon as one line fails. */
  function ReadLines(lines: seq<string>, parseFloat: string -> Option<real>): Option<seq<Track>>
  {
    if lines == [] then Some([])
    else
      match ReadLines(lines[..|lines| - 1], parseFloat)
      case None => None
      case Some(ts) =>
        match ReadLine(lines[|lines| - 1], parseFloat)
        case Skipped => Some(ts)
        case Read(t) => Some(ts + [t])
        case Failed => None
  }

  function RttmAnnotation(file: FileContent, parseFloat: string -> Option<real>): Option<seq<Track>>
  {
    match file
    case Unreadable => None
    case Lines(lines) => ReadLines(lines, parseFloat)
  }

  /** metrics_calculation.py:9-28: read an RTTM file into an annotation, or None on any error. */
  method LoadRttmAsAnnotation(file: FileContent, parseFloat: string -> Option<real>)
    returns (annotation: Option<seq<Track>>)
    ensures annotation == RttmAnnotation(file, parseFloat)
  {
    if file.Unreadable? {
      return None;
    }
    var lines := file.lines;
    var tracks: seq<Track> := [];
    for i := 0 to |lines|
      invariant ReadLines(lines[..i], parseFloat) == Some(tracks)
    {
      ReadLinesExtend(lines, i, parseFloat);
      var line := lines[i];
      if !StartsWith(line, SpeakerTag) {
        assert ReadLine(line, parseFloat) == Skipped;
        continue;
      }
      var parts := Words(Strip(line));
      if |parts| < 8 {
        FailedLineRejects(lines, i, parseFloat);
        return None;
      }
      var start := parseFloat(parts[3]);
      var duration := parseFloat(parts[4]);
      if start.None? || duration.None? {
        FailedLineRejects(lines, i, parseFloat);
        return None;
      }
      var track := Track(Segment(start.value, start.value + duration.value), parts[7]);
      assert ReadLine(line, parseFloat) == Read(track);
      tracks := tracks + [track];
    }
    assert lines[..|lines|] == lines;
    return Some(tracks);
  }

  /** Reading one more line of a prefix. */
  lemma ReadLinesExtend(lines: seq<string>, i: nat, parseFloat: string -> Option<real>)
    requires i < |lines|
    ensures ReadLines(lines[..i + 1], parseFloat) ==
      match ReadLines(lines[..i], parseFloat)
      case None => None
      case Some(ts) =>
        match ReadLine(lines[i], parseFloat)
        case Skipped => Some(ts)
        case Read(t) => Some(ts + [t])
        case Failed => None
  {
    assert lines[..i + 1][..i] == lines[..i];
  }

  lemma {:induction false} ReadLinesPrefixNone(lines: seq<string>, k: nat, parseFloat: string -> Option<real>)
    requires k <= |lines| && ReadLines(lines[..k], parseFloat) == None
    ensures ReadLines(lines, parseFloat) == None
    decreases |lines| - k
  {
    if k < |lines| {
      assert lines[..k + 1][..k] == lines[..k];
      ReadLinesPrefixNone(lines, k + 1, parseFloat);
    } else {
      assert lines[..k] == lines;
    }
  }

  lemma {:induction false} FailedLineRejects(lines: seq<string>, i: nat, parseFloat: string -> Option<real>)
    requires i < |lines| && ReadLine(lines[i], parseFloat) == Failed
    ensures ReadLines(lines, parseFloat) == None
  {
    assert lines[..i + 1][..i] == lines[..i];
    ReadLinesPrefixNone(lines, i + 1, parseFloat);
  }

  predicate SomeLineFails(lines: seq<string>, parseFloat: string -> Option<real>)
  {
    exists i :: 0 <= i < |lines| && ReadLine(lines[i], parseFloat) == Failed
  }

  lemma {:induction false} SomeLineFailsStep(lines: seq<string>, parseFloat: string -> Option<real>)
    requires lines != []
    ensures SomeLineFails(lines, parseFloat)
        <==> SomeLineFails(lines[..|lines| - 1], parseFloat) || ReadLine(lines[|lines| - 1], parseFloat) == Failed
  {
    var init := lines[..|lines| - 1];
    if SomeLineFails(init, parseFloat) {
      SomeLineFailsGrow(lines, parseFloat);
    }
    if SomeLineFails(lines, parseFloat) {
      SomeLineFailsShrink(lines, parseFloat);
    }
  }

  lemma {:induction false} SomeLineFailsGrow(lines: seq<string>, parseFloat: string -> Option<real>)
    requires lines != [] && SomeLineFails(lines[..|lines| - 1], parseFloat)
    ensures SomeLineFails(lines, parseFloat)
  {
    var init := lines[..|lines| - 1];
    var i :| 0 <= i < |init| && ReadLine(init[i], parseFloat) == Failed;
    assert lines[i] == init[i];
  }

  lemma {:induction false} SomeLineFailsShrink(lines: seq<string>, parseFloat: string -> Option<real>)
    requires lines != [] && SomeLineFails(lines, parseFloat)
    ensures SomeLineFails(lines[..|lines| - 1], parseFloat) || ReadLine(lines[|lines| - 1], parseFloat) == Failed
  {
    var init := lines[..|lines| - 1];
    var i :| 0 <= i < |lines| && ReadLine(lines[i], parseFloat) == Failed;
    if i < |init| {
      assert init[i] == lines[i];
    }
  }

  /** All or nothing: the file is rejected exactly when one of its lines fails. */
  lemma {:induction false} RejectedIffSomeLineFails(lines: seq<string>, parseFloat: string -> Option<real>)
    ensures ReadLines(lines, parseFloat) == None <==> SomeLineFails(lines, parseFloat)
    decreases |lines|
  {
    if lines != [] {
      RejectedIffSomeLineFails(lines[..|lines| - 1], parseFloat);
      SomeLineFailsStep(lines, parseFloat);
    }
  }

  /** Reading two pieces of a file in turn gives the concatenated tracks. */
  lemma {:induction false} ReadLinesConcat(a: seq<string>, b: seq<string>, parseFloat: string -> Option<real>)
    ensures ReadLines(a + b, parseFloat)
         == match (ReadLines(a, parseFloat), ReadLines(b, parseFloat))
            case (Some(x), Some(y)) => Some(x + y)
            case _ => None
    decreases |b|
  {
    if b == [] {
      assert a + b == a;
      if ReadLines(a, parseFloat).Some? {
        assert ReadLines(a, parseFloat).value + [] == ReadLines(a, parseFloat).value;
      }
    } else {
      assert (a + b)[..|a + b| - 1] == a + b[..|b| - 1];
      assert (a + b)[|a + b| - 1] == b[|b| - 1];
      ReadLinesConcat(a, b[..|b| - 1], parseFloat);
      if ReadLines(a, parseFloat).Some? && ReadLines(b[..|b| - 1], parseFloat).Some?
         && ReadLine(b[|b| - 1], parseFloat).Read?
      {
        var x := ReadLines(a, parseFloat).value;
        var y := ReadLines(b[..|b| - 1], parseFloat).value;
        assert x + y + [ReadLine(b[|b| - 1], parseFloat).track] == x + (y + [ReadLine(b[|b| - 1], parseFloat).track]);
      }
    }
  }

  /** A line that is not a SPEAKER record can be removed without changing the result. */
  lemma SkippedLineIgnored(a: seq<string>, line: string, b: seq<string>, parseFloat: string -> Option<real>)
    requires !StartsWith(line, SpeakerTag)
    ensures ReadLines(a + [line] + b, parseFloat) == ReadLines(a + b, parseFloat)
  {
    ReadLinesConcat(a + [line], b, parseFloat);
    ReadLinesConcat(a, [line], parseFloat);
    ReadLinesConcat(a, b, parseFloat);
    assert [line][..0] == [];
    if ReadLines(a, parseFloat).Some? {
      assert ReadLines(a, parseFloat).value + [] == ReadLines(a, parseFloat).value;
    }
  }

  /** A SPEAKER line in the standard ten-field layout of the NIST RTTM format
      (type, file, channel, onset, duration, orthography, subtype, name,
      confidence, lookahead), as pyannote writes it. */
  function StandardLine(uri: string, onset: string, duration: string, name: string): string
  {
    Join([SpeakerTag, uri, "1", onset, duration, "<NA>", "<NA>", name, "<NA>", "<NA>"], " ") + "\n"
  }

  lemma {:induction false} StripNewline(j: string)
    requires j != [] && !IsWhitespace(j[0]) && !IsWhitespace(j[|j| - 1])
    ensures Strip(j + "\n") == j
  {
    assert DropLeadingWhitespace(j + "\n") == j + "\n";
    assert (j + "\n")[..|j + "\n"| - 1] == j;
    assert DropTrailingWhitespace(j) == j;
  }

  lemma {:induction false} JoinEnds(fields: seq<string>)
    requires |fields| >= 2 && AllWords(fields)
    ensures var j := Join(fields, " ");
      StartsWith(j, fields[0] + " ") && j != [] && !IsWhitespace(j[|j| - 1])
  {
    JoinCons(fields[0], fields[1..], " ");
    assert fields == [fields[0]] + fields[1..];
    var last := fields[|fields| - 1];
    assert IsWord(last);
    var j := Join(fields, " ");
    assert j == Join(fields[..|fields| - 1], " ") + " " + last;
    assert j[|j| - 1] == last[|last| - 1];
    assert j[..|fields[0] + " "|] == fields[0] + " ";
  }

  /** A SPEAKER record written as words separated by single spaces splits back into those words. */
  lemma {:induction false} SpacedRecordFields(fields: seq<string>)
    requires |fields| >= 2 && AllWords(fields) && fields[0] == SpeakerTag
    ensures var line := Join(fields, " ") + "\n";
      StartsWith(line, SpeakerTag) && Words(Strip(line)) == fields
  {
    var j := Join(fields, " ");
    JoinEnds(fields);
    StripNewline(j);
    WordsOfJoin(fields);
    assert (j + "\n")[..7] == j[..7];
    assert j[..7] == (SpeakerTag + " ")[..7];
  }

  /** A line in the standard layout reads back as exactly its onset, its onset plus
      its duration, and its speaker name. */
  lemma RttmLineRoundTrip(uri: string, onsetText: string, durationText: string, name: string,
                          onset: real, duration: real, parseFloat: string -> Option<real>)
    requires IsWord(uri) && IsWord(onsetText) && IsWord(durationText) && IsWord(name)
    requires parseFloat(onsetText) == Some(onset) && parseFloat(durationText) == Some(duration)
    ensures ReadLine(StandardLine(uri, onsetText, durationText, name), parseFloat)
         == Read(Track(Segment(onset, onset + duration), name))
  {
    var fields := [SpeakerTag, uri, "1", onsetText, durationText, "<NA>", "<NA>", name, "<NA>", "<NA>"];
    assert AllWords(fields) by {
      forall k | 0 <= k < |fields| ensures IsWord(fields[k]) {
      }
    }
    SpacedRecordFields(fields);
  }

  // ---------------------------------------------------------------------
  // The evaluation loop
  // ---------------------------------------------------------------------

  /** What the loop reports for one reference file. */
  datatype Outcome = MissingHypothesis(name: string) | Unloadable(name: string) | Evaluated(name: string, jer: real)

  /** metrics_calculation.py:40-67 for one reference file of the listing. The hypothesis
      folder is a map from file name to content; a name it lacks is a missing file. */
  function Evaluate(name: string, reference: FileContent, hypotheses: map<string, FileContent>,
                    parseFloat: string -> Option<real>): (o: Outcome)
    ensures o.name == name
    ensures o.MissingHypothesis? <==> name !in hypotheses
    ensures o.Unloadable? <==>
      name in hypotheses
      && (RttmAnnotation(reference, parseFloat).None? || RttmAnnotation(hypotheses[name], parseFloat).None?)
    ensures o.Evaluated? ==> 0.0 <= o.jer <= 1.0
  {
    if name !in hypotheses then MissingHypothesis(name)
    else
      match (RttmAnnotation(reference, parseFloat), RttmAnnotation(hypotheses[name], parseFloat))
      case (Some(r), Some(h)) => Evaluated(name, Jer(r, h))
      case _ => Unloadable(name)
  }

  predicate IsRttmName(name: string)
  {
    EndsWith(name, ".rttm")
  }

  /** The outcomes of a reference-folder listing, in listing order. */
  function Report(listing: seq<(string, FileContent)>, hypotheses: map<string, FileContent>,
                  parseFloat: string -> Option<real>): seq<Outcome>
  {
    if listing == [] then []
    else
      var (name, content) := listing[|listing| - 1];
      Report(listing[..|listing| - 1], hypotheses, parseFloat)
        + (if IsRttmName(name) then [Evaluate(name, content, hypotheses, parseFloat)] else [])
  }

  /** The names of the listing that end in ".rttm", in order. */
  function RttmNames(listing: seq<(string, FileContent)>): seq<string>
  {
    if listing == [] then []
    else
      RttmNames(listing[..|listing| - 1])
        + (if IsRttmName(listing[|listing| - 1].0) then [listing[|listing| - 1].0] else [])
  }

  function OutcomeNames(report: seq<Outcome>): seq<string>
  {
    seq(|report|, k requires 0 <= k < |report| => report[k].name)
  }

  /** metrics_calculation.py:36-72: evaluate each listed reference file in turn. */
  method CalculateJer(listing: seq<(string, FileContent)>, hypotheses: map<string, FileContent>,
                      parseFloat: string -> Option<real>)
    returns (report: seq<Outcome>)
    ensures report == Report(listing, hypotheses, parseFloat)
  {
    report := [];
    for i := 0 to |listing|
      invariant report == Report(listing[..i], hypotheses, parseFloat)
    {
      assert listing[..i + 1][..i] == listing[..i];
      var (name, content) := listing[i];
      if !IsRttmName(name) {
        continue;
      }
      if name !in hypotheses {
        report := report + [MissingHypothesis(name)];
        continue;
      }
      var ref := LoadRttmAsAnnotation(content, parseFloat);
      var hyp := LoadRttmAsAnnotation(hypotheses[name], parseFloat);
      if ref.None? || hyp.None? {
        report := report + [Unloadable(name)];
        continue;
      }
      report := report + [Evaluated(name, Jer(ref.value, hyp.value))];
    }
    assert listing[..|listing|] == listing;
  }

  /** Exactly the ".rttm" names of the listing are reported, once each and in
      listing order: a skipped file does not stop the files after it. */
  lemma {:induction false} ReportCoversRttmNames(listing: seq<(string, FileContent)>,
                                                 hypotheses: map<string, FileContent>,
                                                 parseFloat: string -> Option<real>)
    ensures OutcomeNames(Report(listing, hypotheses, parseFloat)) == RttmNames(listing)
    decreases |listing|
  {
    if listing != [] {
      var init := listing[..|listing| - 1];
      ReportCoversRttmNames(init, hypotheses, parseFloat);
      var r := Report(init, hypotheses, parseFloat);
      var (name, content) := listing[|listing| - 1];
      var extra := if IsRttmName(name) then [Evaluate(name, content, hypotheses, parseFloat)] else [];
      assert OutcomeNames(r + extra) == OutcomeNames(r) + OutcomeNames(extra);
    }
  }

  /** A reported rate, if any, lies between 0 and 1. */
  predicate RateBounded(o: Outcome)
  {
    o.Evaluated? ==> 0.0 <= o.jer <= 1.0
  }

  /** Every rate the loop reports lies between 0 and 1. */
  lemma {:induction false} ReportedRatesBounded(listing: seq<(string, FileContent)>,
                                                hypotheses: map<string, FileContent>,
                                                parseFloat: string -> Option<real>)
    ensures forall k :: 0 <= k < |Report(listing, hypotheses, parseFloat)| ==>
              RateBounded(Report(listing, hypotheses, parseFloat)[k])
    decreases |listing|
  {
    if listing != [] {
      var init := listing[..|listing| - 1];
      ReportedRatesBounded(init, hypotheses, parseFloat);
      var (name, content) := listing[|listing| - 1];
      var extra: seq<Outcome> := if IsRttmName(name) then [Evaluate(name, content, hypotheses, parseFloat)] else [];
      var before: seq<Outcome> := Report(init, hypotheses, parseFloat);
      assert Report(listing, hypotheses, parseFloat) == before + extra;
      forall k | 0 <= k < |before + extra| ensures RateBounded((before + extra)[k]) {
        if k < |before| {
          assert (before + extra)[k] == before[k];
        } else {
          assert (before + extra)[k] == Evaluate(name, content, hypotheses, parseFloat);
        }
      }
    }
  }
}
