/** The transcript builder (transcript.py): an abstract recogniser turns each
    diarized segment into a statement, empty and error statements are
    dropped, consecutive statements of one speaker are merged, and the dialog
    is wrapped in a fixed meeting record. */
module Transcript {
  import opened Common
  import opened Annotations

  /** One `{"Speaker": ..., "Statement": ...}` dialog item. */
  datatype DialogEntry = DialogEntry(speaker: string, statement: string)

  /** What cropping and transcribing one segment produced: an exception
      anywhere in the step, or a window of `samples` samples whose
      recognised text is `text`. */
  datatype Recognition = Raised | Recognised(samples: nat, text: string)

  /** `preprocess_audio_segment` on the outcome of the recogniser. */
  function SegmentStatement(r: Recognition): (s: string)
    ensures r.Raised? || r.samples == 0 ==> s == ""
    ensures r.Recognised? && r.samples > 0 ==> |s| <= |r.text|
    ensures s != [] ==> !IsWhitespace(s[0]) && !IsWhitespace(s[|s| - 1])
  {
    if r.Raised? || r.samples == 0 then "" else Strip(r.text)
  }

  /** A statement is kept when it is non-empty and has no `"Error"` in it. */
  predicate Keep(statement: string)
  {
    statement != "" && !Contains(statement, "Error")
  }

  /** `preprocess_audio_segment` for a fixed audio file, as a function of the segment. */
  function Transcriber(recognise: Segment -> Recognition): Segment -> string
  {
    seg => SegmentStatement(recognise(seg))
  }

  function EntryOf(t: Track, transcribe: Segment -> string): DialogEntry
  {
    DialogEntry(t.speaker, transcribe(t.segment))
  }

  /** The dialog before merging: one entry per track with a kept statement, in track order. */
  function RecognisedDialog(ts: seq<Track>, transcribe: Segment -> string): (d: seq<DialogEntry>)
    ensures |d| <= |ts|
    ensures forall e :: e in d ==> Keep(e.statement)
  {
    if ts == [] then []
    else
      var init := RecognisedDialog(ts[..|ts| - 1], transcribe);
      var e := EntryOf(ts[|ts| - 1], transcribe);
      if Keep(e.statement) then init + [e] else init
  }

  // ---------------------------------------------------------------------
  // Merging: runs of one speaker
  // ---------------------------------------------------------------------

  /** The dialog cut into maximal runs of consecutive entries of one speaker. */
  function Runs(d: seq<DialogEntry>): (r: seq<seq<DialogEntry>>)
    ensures forall k :: 0 <= k < |r| ==> r[k] != []
    ensures r == [] <==> d == []
  {
    if d == [] then []
    else
      var rs := Runs(d[..|d| - 1]);
      var e := d[|d| - 1];
      if rs != [] && rs[|rs| - 1][0].speaker == e.speaker then rs[..|rs| - 1] + [rs[|rs| - 1] + [e]]
      else rs + [[e]]
  }

  function Statements(d: seq<DialogEntry>): seq<string>
  {
    seq(|d|, i requires 0 <= i < |d| => d[i].statement)
  }

  function Speakers(d: seq<DialogEntry>): seq<string>
  {
    seq(|d|, i requires 0 <= i < |d| => d[i].speaker)
  }

  /** One entry per run: the run's speaker and its statements joined by single spaces. */
  function JoinedRuns(rs: seq<seq<DialogEntry>>): (m: seq<DialogEntry>)
    requires forall k :: 0 <= k < |rs| ==> rs[k] != []
    ensures |m| == |rs|
    ensures forall k :: 0 <= k < |rs| ==> m[k] == DialogEntry(rs[k][0].speaker, Join(Statements(rs[k]), " "))
  {
    seq(|rs|, k requires 0 <= k < |rs| => DialogEntry(rs[k][0].speaker, Join(Statements(rs[k]), " ")))
  }

  /** The merged dialog, entry by entry: an entry of the last merged speaker
      extends that entry's statement, any other entry is appended. Lemma
      `MergedIsJoinedRuns` shows that this is `JoinedRuns(Runs(d))`. */
  function Merged(d: seq<DialogEntry>): (m: seq<DialogEntry>)
    ensures m == [] <==> d == []
  {
    if d == [] then [] else Absorb(Merged(d[..|d| - 1]), d[|d| - 1])
  }

  /** Merge one more entry into a merged dialog. */
  function Absorb(m: seq<DialogEntry>, e: DialogEntry): (r: seq<DialogEntry>)
    ensures r != []
  {
    if m != [] && m[|m| - 1].speaker == e.speaker
    then m[..|m| - 1] + [DialogEntry(e.speaker, m[|m| - 1].statement + " " + e.statement)]
    else m + [e]
  }

  /** transcript.py:38-53. The source appends to the run's first entry in place;
      here the merged entry is a new value. */
  method MergeConsecutiveStatements(dialog: seq<DialogEntry>) returns (merged: seq<DialogEntry>)
    ensures merged == Merged(dialog)
    ensures merged == [] <==> dialog == []
  {
    if dialog == [] {
      return [];
    }
    merged := [dialog[0]];
    assert Merged(dialog[..1]) == [dialog[0]];
    for i := 1 to |dialog|
      invariant merged == Merged(dialog[..i])
      invariant merged != []
    {
      var current := dialog[i];
      var last := merged[|merged| - 1];
      MergedStep(dialog[..i], current);
      assert dialog[..i + 1] == dialog[..i] + [current];
      if last.speaker == current.speaker {
        merged := merged[..|merged| - 1] + [DialogEntry(last.speaker, last.statement + " " + current.statement)];
      } else {
        merged := merged + [current];
      }
    }
    assert dialog[..|dialog|] == dialog;
  }

  lemma {:induction false} MergedStep(d: seq<DialogEntry>, e: DialogEntry)
    ensures Merged(d + [e]) == Absorb(Merged(d), e)
  {
    assert (d + [e])[..|d|] == d;
  }

  /** Each merged entry is one maximal run of a speaker, its statements
      joined by single spaces in order. */
  lemma {:induction false} MergedIsJoinedRuns(d: seq<DialogEntry>)
    ensures Merged(d) == JoinedRuns(Runs(d))
    decreases |d|
  {
    if d != [] {
      MergedIsJoinedRuns(d[..|d| - 1]);
      JoinedRunsStep(d);
    }
  }

  lemma {:induction false} JoinedRunsStep(d: seq<DialogEntry>)
    requires d != []
    requires Merged(d[..|d| - 1]) == JoinedRuns(Runs(d[..|d| - 1]))
    ensures Merged(d) == JoinedRuns(Runs(d))
  {
    var e := d[|d| - 1];
    var rs: seq<seq<DialogEntry>> := Runs(d[..|d| - 1]);
    if rs != [] && rs[|rs| - 1][0].speaker == e.speaker {
      JoinedRunsExtendLast(rs, e);
    } else {
      JoinedRunsAppend(rs, e);
    }
  }

  lemma {:induction false} JoinedRunsExtendLast(rs: seq<seq<DialogEntry>>, e: DialogEntry)
    requires rs != [] && forall k :: 0 <= k < |rs| ==> rs[k] != []
    ensures
      var m := JoinedRuns(rs);
      JoinedRuns(rs[..|rs| - 1] + [rs[|rs| - 1] + [e]])
      == m[..|m| - 1] + [DialogEntry(rs[|rs| - 1][0].speaker, m[|m| - 1].statement + " " + e.statement)]
  {
    var run := rs[|rs| - 1];
    JoinStatementsStep(run, e);
    var rs': seq<seq<DialogEntry>> := rs[..|rs| - 1] + [run + [e]];
    var m := JoinedRuns(rs);
    var lhs := JoinedRuns(rs');
    var rhs := m[..|m| - 1] + [DialogEntry(run[0].speaker, m[|m| - 1].statement + " " + e.statement)];
    forall k | 0 <= k < |rs'| ensures lhs[k] == rhs[k] {
      if k < |rs| - 1 {
        assert rs'[k] == rs[k];
      } else {
        assert rs'[k] == run + [e];
      }
    }
  }

  lemma {:induction false} JoinedRunsAppend(rs: seq<seq<DialogEntry>>, e: DialogEntry)
    requires forall k :: 0 <= k < |rs| ==> rs[k] != []
    ensures JoinedRuns(rs + [[e]]) == JoinedRuns(rs) + [e]
  {
    assert Join(Statements([e]), " ") == e.statement;
    var rs' := rs + [[e]];
    forall k | 0 <= k < |rs| ensures rs'[k] == rs[k] { }
  }

  lemma {:induction false} JoinStatementsStep(run: seq<DialogEntry>, e: DialogEntry)
    requires run != []
    ensures Join(Statements(run + [e]), " ") == Join(Statements(run), " ") + " " + e.statement
  {
    assert Statements(run + [e]) == Statements(run) + [e.statement];
    assert Statements(run + [e])[..|run|] == Statements(run);
  }

  /** The last run is extended by an entry of its speaker; any other entry starts a new run. */
  lemma {:induction false} RunsStep(d: seq<DialogEntry>, e: DialogEntry)
    ensures Runs(d + [e]) ==
      var rs := Runs(d);
      if rs != [] && rs[|rs| - 1][0].speaker == e.speaker then rs[..|rs| - 1] + [rs[|rs| - 1] + [e]]
      else rs + [[e]]
  {
    assert (d + [e])[..|d|] == d;
  }

  /** The runs, concatenated in order, give the dialog back. */
  lemma {:induction false} RunsPartition(d: seq<DialogEntry>)
    ensures Concat(Runs(d)) == d
    decreases |d|
  {
    if d != [] {
      var init := d[..|d| - 1];
      var e := d[|d| - 1];
      var rs: seq<seq<DialogEntry>> := Runs(init);
      RunsPartition(init);
      assert d == init + [e];
      RunsStep(init, e);
      var rs' := Runs(d);
      ConcatInit(rs');
      if rs != [] && rs[|rs| - 1][0].speaker == e.speaker {
        assert rs'[..|rs'| - 1] == rs[..|rs| - 1];
        ConcatInit(rs);
      } else {
        assert rs'[..|rs'| - 1] == rs;
      }
    }
  }

  /** Every entry of a run has the run's speaker. */
  predicate Uniform(rs: seq<seq<DialogEntry>>)
    requires forall k :: 0 <= k < |rs| ==> rs[k] != []
  {
    forall k, i :: 0 <= k < |rs| && 0 <= i < |rs[k]| ==> rs[k][i].speaker == rs[k][0].speaker
  }

  /** Adjacent runs have different speakers. */
  predicate Separated(rs: seq<seq<DialogEntry>>)
    requires forall k :: 0 <= k < |rs| ==> rs[k] != []
  {
    forall k :: 0 < k < |rs| ==> rs[k][0].speaker != rs[k - 1][0].speaker
  }

  /** Each run has one speaker, and adjacent runs have different speakers:
      the runs are maximal. */
  lemma {:induction false} RunsAreMaximal(d: seq<DialogEntry>)
    ensures Uniform(Runs(d)) && Separated(Runs(d))
    decreases |d|
  {
    if d != [] {
      var init := d[..|d| - 1];
      var e := d[|d| - 1];
      assert d == init + [e];
      RunsAreMaximal(init);
      RunsStep(init, e);
      ExtendRuns(Runs(init), e);
    }
  }

  /** One step of `Runs` keeps both halves of maximality. */
  lemma {:induction false} ExtendRuns(rs: seq<seq<DialogEntry>>, e: DialogEntry)
    requires forall k :: 0 <= k < |rs| ==> rs[k] != []
    requires Uniform(rs) && Separated(rs)
    ensures rs != [] && rs[|rs| - 1][0].speaker == e.speaker ==>
      var rs': seq<seq<DialogEntry>> := rs[..|rs| - 1] + [rs[|rs| - 1] + [e]];
      Uniform(rs') && Separated(rs')
    ensures !(rs != [] && rs[|rs| - 1][0].speaker == e.speaker) ==>
      var rs': seq<seq<DialogEntry>> := rs + [[e]];
      Uniform(rs') && Separated(rs')
  {
    if rs != [] && rs[|rs| - 1][0].speaker == e.speaker {
      var rs': seq<seq<DialogEntry>> := rs[..|rs| - 1] + [rs[|rs| - 1] + [e]];
      forall k, i | 0 <= k < |rs'| && 0 <= i < |rs'[k]| ensures rs'[k][i].speaker == rs'[k][0].speaker {
        if k < |rs| - 1 {
          assert rs'[k] == rs[k];
        } else if i < |rs[k]| {
          assert rs'[k][i] == rs[k][i] && rs'[k][0] == rs[k][0];
        }
      }
      forall k | 0 < k < |rs'| ensures rs'[k][0].speaker != rs'[k - 1][0].speaker {
        assert rs'[k][0] == rs[k][0] && rs'[k - 1] == rs[k - 1];
      }
    } else {
      var rs': seq<seq<DialogEntry>> := rs + [[e]];
      forall k, i | 0 <= k < |rs'| && 0 <= i < |rs'[k]| ensures rs'[k][i].speaker == rs'[k][0].speaker {
        if k < |rs| {
          assert rs'[k] == rs[k];
        }
      }
      forall k | 0 < k < |rs'| ensures rs'[k][0].speaker != rs'[k - 1][0].speaker {
        assert rs'[k - 1] == rs[k - 1];
        if k < |rs| {
          assert rs'[k] == rs[k];
        }
      }
    }
  }

  lemma {:induction false} ConcatInit(rs: seq<seq<DialogEntry>>)
    requires rs != []
    ensures Concat(rs) == Concat(rs[..|rs| - 1]) + rs[|rs| - 1]
  {
  }

  /** No two adjacent merged entries have the same speaker. */
  predicate NoAdjacentSame(d: seq<DialogEntry>)
  {
    forall k :: 0 < k < |d| ==> d[k].speaker != d[k - 1].speaker
  }

  lemma {:induction false} MergedHasNoAdjacentSame(d: seq<DialogEntry>)
    ensures NoAdjacentSame(Merged(d))
    decreases |d|
  {
    if d != [] {
      var init := d[..|d| - 1];
      assert d == init + [d[|d| - 1]];
      MergedHasNoAdjacentSame(init);
      MergedStep(init, d[|d| - 1]);
    }
  }

  lemma {:induction false} MergedEmpty()
    ensures Merged([]) == []
  {
  }

  /** The last merged entry belongs to the speaker of the last input entry. */
  lemma {:induction false} MergedLastSpeaker(d: seq<DialogEntry>)
    requires d != []
    ensures Merged(d) != [] && Merged(d)[|Merged(d)| - 1].speaker == d[|d| - 1].speaker
  {
    var init := d[..|d| - 1];
    assert d == init + [d[|d| - 1]];
    MergedStep(init, d[|d| - 1]);
  }

  /** The speaker sequence with consecutive repeats collapsed. */
  function Collapse(xs: seq<string>): (r: seq<string>)
    ensures |r| <= |xs|
  {
    if |xs| <= 1 then xs
    else Collapse(xs[..|xs| - 1]) + (if xs[|xs| - 1] == xs[|xs| - 2] then [] else [xs[|xs| - 1]])
  }

  lemma {:induction false} CollapseStep(xs: seq<string>, x: string)
    requires xs != []
    ensures Collapse(xs + [x]) == Collapse(xs) + (if x == xs[|xs| - 1] then [] else [x])
  {
    assert (xs + [x])[..|xs|] == xs;
  }

  lemma {:induction false} SpeakersAppend(m: seq<DialogEntry>, e: DialogEntry)
    ensures Speakers(m + [e]) == Speakers(m) + [e.speaker]
  {
  }

  /** Replacing the last entry by one of the same speaker keeps the speakers. */
  lemma {:induction false} SpeakersReplaceLast(m: seq<DialogEntry>, e: DialogEntry)
    requires m != [] && m[|m| - 1].speaker == e.speaker
    ensures Speakers(m[..|m| - 1] + [e]) == Speakers(m)
  {
  }

  /** The merged speakers are the input speakers with consecutive repeats collapsed. */
  lemma {:induction false} MergedSpeakers(d: seq<DialogEntry>)
    ensures Speakers(Merged(d)) == Collapse(Speakers(d))
    decreases |d|
  {
    if d != [] {
      MergedSpeakers(d[..|d| - 1]);
      MergedSpeakersStep(d);
    }
  }

  lemma {:induction false} MergedSpeakersStep(d: seq<DialogEntry>)
    requires d != []
    requires Speakers(Merged(d[..|d| - 1])) == Collapse(Speakers(d[..|d| - 1]))
    ensures Speakers(Merged(d)) == Collapse(Speakers(d))
  {
    var init := d[..|d| - 1];
    SpeakersOfInit(d);
    if init != [] {
      MergedLastSpeaker(init);
    }
    CollapseMergeStep(Speakers(init), Merged(init), d[|d| - 1], Merged(d));
  }

  lemma {:induction false} SpeakersOfInit(d: seq<DialogEntry>)
    requires d != []
    ensures Speakers(d) == Speakers(d[..|d| - 1]) + [d[|d| - 1].speaker]
  {
  }

  /** One merging step, on its own: `m` is merged so far with speakers
      `Collapse(s)`, and `m'` is `m` after merging `e`. */
  lemma {:induction false} CollapseMergeStep(s: seq<string>, m: seq<DialogEntry>, e: DialogEntry, m': seq<DialogEntry>)
    requires Speakers(m) == Collapse(s)
    requires s == [] <==> m == []
    requires s != [] ==> m[|m| - 1].speaker == s[|s| - 1]
    requires m' == Absorb(m, e)
    ensures Speakers(m') == Collapse(s + [e.speaker])
  {
    if s != [] {
      CollapseStep(s, e.speaker);
      if m[|m| - 1].speaker == e.speaker {
        SpeakersReplaceLast(m, DialogEntry(e.speaker, m[|m| - 1].statement + " " + e.statement));
      } else {
        SpeakersAppend(m, e);
      }
    } else {
      assert s + [e.speaker] == [e.speaker];
    }
  }

  /** Merging loses no words: the statements, read in order and separated by
      single spaces, give the same text before and after. */
  lemma {:induction false} MergedKeepsText(d: seq<DialogEntry>)
    ensures Join(Statements(Merged(d)), " ") == Join(Statements(d), " ")
    decreases |d|
  {
    if d != [] {
      MergedKeepsText(d[..|d| - 1]);
      MergedKeepsTextStep(d);
    }
  }

  lemma {:induction false} MergedKeepsTextStep(d: seq<DialogEntry>)
    requires d != []
    requires Join(Statements(Merged(d[..|d| - 1])), " ") == Join(Statements(d[..|d| - 1]), " ")
    ensures Join(Statements(Merged(d)), " ") == Join(Statements(d), " ")
  {
    var init := d[..|d| - 1];
    assert Statements(d) == Statements(init) + [d[|d| - 1].statement];
    TextMergeStep(Statements(init), Merged(init), d[|d| - 1], Merged(d));
  }

  /** One merging step, on its own: `m` is merged so far and reads as the
      statements `t`, and `m'` is `m` after merging `e`. */
  lemma {:induction false} TextMergeStep(t: seq<string>, m: seq<DialogEntry>, e: DialogEntry, m': seq<DialogEntry>)
    requires Join(Statements(m), " ") == Join(t, " ")
    requires t == [] <==> m == []
    requires m' == Absorb(m, e)
    ensures Join(Statements(m'), " ") == Join(t + [e.statement], " ")
  {
    var s := Statements(m);
    JoinLast(t + [e.statement]);
    assert (t + [e.statement])[..|t|] == t;
    if m != [] && m[|m| - 1].speaker == e.speaker {
      assert Statements(m') == s[..|s| - 1] + [s[|s| - 1] + " " + e.statement];
      JoinReplaceLast(s, e.statement);
    } else {
      var s' := Statements(m');
      assert s' == s + [e.statement];
      JoinLast(s');
      assert s'[..|s|] == s;
    }
  }

  lemma {:induction false} JoinLast(parts: seq<string>)
    requires parts != []
    ensures Join(parts, " ") == if |parts| == 1 then parts[0] else Join(parts[..|parts| - 1], " ") + " " + parts[|parts| - 1]
  {
  }

  /** Extending the last part by `" " + x` extends the joined text by the same. */
  lemma {:induction false} JoinReplaceLast(s: seq<string>, x: string)
    requires s != []
    ensures Join(s[..|s| - 1] + [s[|s| - 1] + " " + x], " ") == Join(s, " ") + " " + x
  {
    var s' := s[..|s| - 1] + [s[|s| - 1] + " " + x];
    if |s| > 1 {
      assert s'[..|s'| - 1] == s[..|s| - 1];
    }
  }

  /** A dialog that already alternates speakers is left as it is. */
  lemma {:induction false} MergedFixesAlternating(d: seq<DialogEntry>)
    requires NoAdjacentSame(d)
    ensures Merged(d) == d
    decreases |d|
  {
    if d != [] {
      var init := d[..|d| - 1];
      var e := d[|d| - 1];
      assert d == init + [e];
      MergedFixesAlternating(init);
      MergedStep(init, e);
    }
  }

  /** Merging is idempotent. */
  lemma {:induction false} MergedIdempotent(d: seq<DialogEntry>)
    ensures Merged(Merged(d)) == Merged(d)
  {
    MergedHasNoAdjacentSame(d);
    MergedFixesAlternating(Merged(d));
  }

  // ---------------------------------------------------------------------
  // The recognised dialog
  // ---------------------------------------------------------------------

  /** An entry is in the dialog iff some track yields it with a kept statement. */
  lemma {:induction false} RecognisedMembership(ts: seq<Track>, transcribe: Segment -> string, e: DialogEntry)
    ensures e in RecognisedDialog(ts, transcribe) <==>
      exists i :: 0 <= i < |ts| && e == EntryOf(ts[i], transcribe) && Keep(e.statement)
  {
    if e in RecognisedDialog(ts, transcribe) {
      RecognisedFrom(ts, transcribe, e);
    }
    if exists i :: 0 <= i < |ts| && e == EntryOf(ts[i], transcribe) && Keep(e.statement) {
      var i :| 0 <= i < |ts| && e == EntryOf(ts[i], transcribe) && Keep(e.statement);
      RecognisedAt(ts, transcribe, i);
    }
  }

  lemma {:induction false} RecognisedFrom(ts: seq<Track>, transcribe: Segment -> string, e: DialogEntry)
    requires e in RecognisedDialog(ts, transcribe)
    ensures exists i :: 0 <= i < |ts| && e == EntryOf(ts[i], transcribe)
    decreases |ts|
  {
    var init := ts[..|ts| - 1];
    if e in RecognisedDialog(init, transcribe) {
      RecognisedFrom(init, transcribe, e);
      var i :| 0 <= i < |init| && e == EntryOf(init[i], transcribe);
      assert ts[i] == init[i];
    } else {
      assert e == EntryOf(ts[|ts| - 1], transcribe);
    }
  }

  lemma {:induction false} RecognisedAt(ts: seq<Track>, transcribe: Segment -> string, i: nat)
    requires i < |ts| && Keep(EntryOf(ts[i], transcribe).statement)
    ensures EntryOf(ts[i], transcribe) in RecognisedDialog(ts, transcribe)
  {
    var a := ts[..i + 1];
    var b := ts[i + 1..];
    var x := EntryOf(ts[i], transcribe);
    assert ts == a + b;
    assert a[..i] == ts[..i] && a[i] == ts[i];
    var ra := RecognisedDialog(a, transcribe);
    assert ra == RecognisedDialog(ts[..i], transcribe) + [x];
    assert ra[|ra| - 1] == x;
    RecognisedConcat(a, b, transcribe);
    var r := RecognisedDialog(ts, transcribe);
    assert r[|ra| - 1] == x;
  }

  /** Entries keep the order of the tracks: the dialog distributes over concatenation. */
  lemma {:induction false} RecognisedConcat(a: seq<Track>, b: seq<Track>, transcribe: Segment -> string)
    ensures RecognisedDialog(a + b, transcribe) == RecognisedDialog(a, transcribe) + RecognisedDialog(b, transcribe)
    decreases |b|
  {
    if b == [] {
      assert a + b == a;
    } else {
      var b' := b[..|b| - 1];
      assert (a + b)[..|a + b| - 1] == a + b';
      RecognisedConcat(a, b', transcribe);
    }
  }

  /** A segment whose window is empty, or whose recognition raised, adds no entry. */
  lemma {:induction false} SilentSegmentDropped(ts: seq<Track>, t: Track, recognise: Segment -> Recognition)
    requires recognise(t.segment).Raised? || recognise(t.segment).samples == 0
    ensures RecognisedDialog(ts + [t], Transcriber(recognise)) == RecognisedDialog(ts, Transcriber(recognise))
  {
    assert (ts + [t])[..|ts|] == ts;
  }

  // ---------------------------------------------------------------------
  // The transcript record
  // ---------------------------------------------------------------------

  const DefaultLocation: string := "Video Call"
  const ClosingNote: string := "The meeting concludes. Details may need to be followed up."

  /** The `"Meeting"` object of the transcript. */
  datatype Meeting = Meeting(
    title: string, date: string, time: string, location: string,
    participants: seq<string>, dialog: seq<DialogEntry>, closingNote: string)

  /** transcript.py:56-80. `recognise` stands for cropping the audio file to
      a segment and transcribing it. */
  method GenerateTranscript(diarization: seq<Track>, recognise: Segment -> Recognition, title: string,
                            participants: seq<string>, location: string := DefaultLocation)
    returns (transcript: Meeting)
    ensures transcript.dialog == Merged(RecognisedDialog(diarization, Transcriber(recognise)))
    ensures transcript.title == title && transcript.participants == participants && transcript.location == location
    ensures transcript.date == "" && transcript.time == "" && transcript.closingNote == ClosingNote
  {
    var dialog: seq<DialogEntry> := [];
    for i := 0 to |diarization|
      invariant dialog == RecognisedDialog(diarization[..i], Transcriber(recognise))
    {
      var track := diarization[i];
      var statement := SegmentStatement(recognise(track.segment));
      assert diarization[..i + 1][..i] == diarization[..i];
      if statement != "" && !Contains(statement, "Error") {
        dialog := dialog + [DialogEntry(track.speaker, statement)];
      }
    }
    assert diarization[..|diarization|] == diarization;
    dialog := MergeConsecutiveStatements(dialog);
    transcript := Meeting(title, "", "", location, participants, dialog, ClosingNote);
  }
}
