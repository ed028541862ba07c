/** The per-file driver of main.py: how output paths are derived from an
    input path, in which order the processing steps run and what stops them,
    and which directory entries are processed. The steps themselves
    (preprocessing, the diarization model, plotting, writing files) are
    outside the model: whether each one raises is a parameter. */
module Pipeline {
  import opened Common

  const DataFolder := "./data/audio"
  const ProcessedFolder := "./data/processed"
  const GraphFolder := "./data/graph"
  const TranscriptFolder := "./transcript"
  const RttmFolder := "./data/rttm"

  // ---------------------------------------------------------------------
  // Path manipulation (Python's posixpath)
  // ---------------------------------------------------------------------

  /** The position of the last `c` in `s`, if any (`str.rfind`). */
  function LastIndexOf(s: string, c: char): (r: Option<nat>)
    ensures r.None? <==> Lacks(s, c)
    ensures r.Some? ==> r.value < |s| && s[r.value] == c && Lacks(s[r.value + 1..], c)
  {
    if s == [] then None
    else if s[|s| - 1] == c then Some(|s| - 1)
    else
      var r := LastIndexOf(s[..|s| - 1], c);
      assert r.Some? ==> s[r.value + 1..] == s[..|s| - 1][r.value + 1..] + [s[|s| - 1]];
      r
  }

  /** `os.path.basename`: the text after the last slash. */
  function FileName(path: string): string
  {
    match LastIndexOf(path, '/')
    case None => path
    case Some(i) => path[i + 1..]
  }

  /** `os.path.splitext(name)[0]`: `name` without its last extension. A dot
      preceded only by dots (as in ".profile") does not start an extension. */
  function Stem(name: string): string
  {
    match LastIndexOf(name, '.')
    case None => name
    case Some(d) => if HasNonDot(name[..d]) then name[..d] else name
  }

  predicate HasNonDot(s: string)
  {
    exists i :: 0 <= i < |s| && s[i] != '.'
  }

  /** main.py:37: the file name of the input with the directory and the last extension removed. */
  function BaseName(path: string): string
  {
    Stem(FileName(path))
  }

  lemma {:induction false} LastIndexOfAfter(s: string, c: char, t: string)
    requires Lacks(t, c)
    ensures LastIndexOf(s + [c] + t, c) == Some(|s|)
    decreases |t|
  {
    var u := s + [c] + t;
    if t == [] {
      assert u[|u| - 1] == c;
    } else {
      assert u[..|u| - 1] == s + [c] + t[..|t| - 1];
      assert u[|u| - 1] == t[|t| - 1];
      LastIndexOfAfter(s, c, t[..|t| - 1]);
    }
  }

  /** A base name never contains a slash. */
  lemma BaseNameHasNoSlash(path: string)
    ensures Lacks(BaseName(path), '/')
  {
    var name := FileName(path);
    assert Lacks(name, '/');
    match LastIndexOf(name, '.')
    case None =>
    case Some(d) =>
      assert forall i :: 0 <= i < d ==> name[..d][i] == name[i];
  }

  /** A path "dir/stem.ext" has base name "stem", for an extension without dots
      and a stem without slashes that is not made of dots only. */
  lemma BaseNameOfPath(dir: string, stem: string, ext: string)
    requires Lacks(stem, '/') && Lacks(ext, '/') && Lacks(ext, '.')
    requires HasNonDot(stem)
    ensures BaseName(dir + "/" + stem + "." + ext) == stem
  {
    var name := stem + "." + ext;
    assert Lacks(name, '/') by {
      forall i | 0 <= i < |name| ensures name[i] != '/' {
        if i < |stem| {
          assert name[i] == stem[i];
        } else if i > |stem| {
          assert name[i] == ext[i - |stem| - 1];
        }
      }
    }
    assert dir + "/" + stem + "." + ext == dir + ['/'] + name;
    LastIndexOfAfter(dir, '/', name);
    assert (dir + ['/'] + name)[|dir| + 1..] == name;
    LastIndexOfAfter(stem, '.', ext);
    assert name[..|stem|] == stem;
  }

  /** A path "dir/name" whose name has no dot has base name "name". */
  lemma BaseNameWithoutExtension(dir: string, name: string)
    requires Lacks(name, '/') && Lacks(name, '.')
    ensures BaseName(dir + "/" + name) == name
  {
    assert dir + "/" + name == dir + ['/'] + name;
    LastIndexOfAfter(dir, '/', name);
    assert (dir + ['/'] + name)[|dir| + 1..] == name;
  }

  /** main.py:38. */
  function ProcessedPath(base: string): string { PathJoin(ProcessedFolder, base + ".wav") }
  /** main.py:25. */
  function RttmPath(base: string): string { PathJoin(RttmFolder, base + ".rttm") }
  /** main.py:53. */
  function GraphPath(base: string): string { PathJoin(GraphFolder, base + ".png") }
  /** main.py:56. */
  function TranscriptPath(base: string): string { PathJoin(TranscriptFolder, base + ".json") }

  /** For a base name derived from an input path, each output lies directly in its
      folder and is named after the base name with its own extension. */
  lemma OutputPaths(input: string)
    ensures var base := BaseName(input);
      && ProcessedPath(base) == ProcessedFolder + "/" + base + ".wav"
      && RttmPath(base) == RttmFolder + "/" + base + ".rttm"
      && GraphPath(base) == GraphFolder + "/" + base + ".png"
      && TranscriptPath(base) == TranscriptFolder + "/" + base + ".json"
  {
    var base := BaseName(input);
    BaseNameHasNoSlash(input);
    NoLeadingSlash(base, ".wav");
    NoLeadingSlash(base, ".rttm");
    NoLeadingSlash(base, ".png");
    NoLeadingSlash(base, ".json");
  }

  lemma {:induction false} NoLeadingSlash(base: string, ext: string)
    requires Lacks(base, '/') && ext != [] && ext[0] == '.'
    ensures !StartsWith(base + ext, "/")
  {
    assert (base + ext)[0] == if base == [] then ext[0] else base[0];
  }

  /** Inputs with different base names never share an output path. */
  lemma OutputPathsInjective(input1: string, input2: string)
    requires BaseName(input1) != BaseName(input2)
    ensures var b1 := BaseName(input1);
      var b2 := BaseName(input2);
      && ProcessedPath(b1) != ProcessedPath(b2) && RttmPath(b1) != RttmPath(b2)
      && GraphPath(b1) != GraphPath(b2) && TranscriptPath(b1) != TranscriptPath(b2)
  {
    var b1 := BaseName(input1);
    var b2 := BaseName(input2);
    OutputPaths(input1);
    OutputPaths(input2);
    SuffixedInjective(ProcessedFolder + "/", b1, b2, ".wav");
    SuffixedInjective(RttmFolder + "/", b1, b2, ".rttm");
    SuffixedInjective(GraphFolder + "/", b1, b2, ".png");
    SuffixedInjective(TranscriptFolder + "/", b1, b2, ".json");
  }

  lemma {:induction false} SuffixedInjective(prefix: string, b1: string, b2: string, ext: string)
    ensures prefix + b1 + ext == prefix + b2 + ext ==> b1 == b2
  {
    if prefix + b1 + ext == prefix + b2 + ext {
      assert prefix + b1 + ext == prefix + (b1 + ext);
      assert prefix + b2 + ext == prefix + (b2 + ext);
      PrefixCancel(prefix, b1 + ext, b2 + ext);
      assert b1 == (b1 + ext)[..|b1|];
      assert b2 == (b2 + ext)[..|b2|];
    }
  }

  // ---------------------------------------------------------------------
  // Step sequencing of process_file
  // ---------------------------------------------------------------------

  datatype Step =
    | Preprocess(input: string, output: string)
    | Diarize(audio: string)
    | Refine
    | SaveRttm(path: string)
    | Plot(title: string, path: string)
    | MakeTranscript(path: string)

  /** How `preprocess_audio` ends: it returns True, it returns False after a
      `CalledProcessError` (identify_speakers.py:42-44), or any other exception
      (a missing ffmpeg binary raises OSError) leaves it, and process_file with it,
      because main.py:40 lies outside the try block of main.py:44-62. */
  datatype Preprocessing = Converted | ConversionFailed | ConversionRaised

  /** `Aborted`: an exception left process_file and ends the program. */
  datatype FileResult = Skipped | Finished | Failed(step: Step) | Aborted

  /** The steps after preprocessing, in the order main.py:47-57 runs them. */
  function Plan(base: string): seq<Step>
  {
    [Diarize(ProcessedPath(base)), Refine, SaveRttm(RttmPath(base)),
     Plot("Speaker Diarization - " + base, GraphPath(base)), MakeTranscript(TranscriptPath(base))]
  }

  /** Whether a step raises out of the try block of main.py:44-62. Saving the RTTM
      file catches its own errors (main.py:26-31), and so does process_transcript
      (transcript.py:101-106); but the transcript step is not imported (main.py:4),
      so in the shipped code calling it raises a NameError. */
  predicate Stops(s: Step, raises: Step -> bool, transcriptImported: bool)
  {
    !s.SaveRttm? && (if s.MakeTranscript? then !transcriptImported else raises(s))
  }

  /** Every step of the plan runs through without raising exactly when the
      transcript step is imported and diarization, refinement and plotting do
      not raise. */
  lemma PlanRunsThrough(base: string, raises: Step -> bool, transcriptImported: bool)
    ensures (forall k :: 0 <= k < |Plan(base)| ==> !Stops(Plan(base)[k], raises, transcriptImported))
      <==> transcriptImported && !raises(Diarize(ProcessedPath(base))) && !raises(Refine)
           && !raises(Plot("Speaker Diarization - " + base, GraphPath(base)))
  {
    var plan := Plan(base);
    assert plan[0] == Diarize(ProcessedPath(base)) && plan[1] == Refine;
    assert plan[3] == Plot("Speaker Diarization - " + base, GraphPath(base));
    assert plan[4].MakeTranscript?;
  }

  /** main.py:44-62: the try block runs the plan in order until a step raises out
      of it; the steps attempted, and whether the block finished. */
  method RunPlan(base: string, raises: Step -> bool, transcriptImported: bool)
    returns (steps: seq<Step>, result: FileResult)
    ensures steps <= Plan(base)
    ensures result.Finished? || result.Failed?
    ensures forall k :: 0 <= k < |steps| - 1 ==> !Stops(steps[k], raises, transcriptImported)
    ensures result.Failed? ==> steps != [] && result.step == steps[|steps| - 1] && Stops(result.step, raises, transcriptImported)
    ensures result == Finished <==>
      steps == Plan(base) && forall k :: 0 <= k < |steps| ==> !Stops(steps[k], raises, transcriptImported)
  {
    ghost var plan := Plan(base);
    var diarize := Diarize(ProcessedPath(base));
    steps := [diarize];
    if Stops(diarize, raises, transcriptImported) {
      return steps, Failed(diarize);
    }
    steps := steps + [Refine];
    if Stops(Refine, raises, transcriptImported) {
      return steps, Failed(Refine);
    }
    steps := steps + [SaveRttm(RttmPath(base))];
    var plot := Plot("Speaker Diarization - " + base, GraphPath(base));
    steps := steps + [plot];
    if Stops(plot, raises, transcriptImported) {
      return steps, Failed(plot);
    }
    var transcript := MakeTranscript(TranscriptPath(base));
    steps := steps + [transcript];
    assert steps == plan;
    if Stops(transcript, raises, transcriptImported) {
      return steps, Failed(transcript);
    }
    return steps, Finished;
  }

  /** main.py:33-62: the steps attempted for one input file, and how it ended. */
  method ProcessFile(inputFile: string, preprocessing: Preprocessing, raises: Step -> bool, transcriptImported: bool)
    returns (trace: seq<Step>, result: FileResult)
    ensures var base := BaseName(inputFile);
      && |trace| >= 1 && trace[0] == Preprocess(inputFile, ProcessedPath(base))
      && (preprocessing == ConversionFailed <==> result == Skipped)
      && (preprocessing == ConversionRaised <==> result == Aborted)
      && (!preprocessing.Converted? ==> |trace| == 1)
      && trace[1..] <= Plan(base)
      && (forall k :: 1 <= k < |trace| - 1 ==> !Stops(trace[k], raises, transcriptImported))
      && (result.Failed? ==> result.step == trace[|trace| - 1] && Stops(result.step, raises, transcriptImported))
      && (result == Finished <==>
            preprocessing.Converted? && trace[1..] == Plan(base)
            && forall k :: 0 <= k < |Plan(base)| ==> !Stops(Plan(base)[k], raises, transcriptImported))
      && (!transcriptImported ==> result != Finished)
      && (transcriptImported ==>
            (result == Finished <==>
               preprocessing.Converted? && !raises(Diarize(ProcessedPath(base))) && !raises(Refine)
               && !raises(Plot("Speaker Diarization - " + base, GraphPath(base)))))
  {
    var base := BaseName(inputFile);
    trace := [Preprocess(inputFile, ProcessedPath(base))];
    if preprocessing == ConversionRaised {
      return trace, Aborted;
    }
    if preprocessing == ConversionFailed {
      return trace, Skipped;
    }
    var steps;
    steps, result := RunPlan(base, raises, transcriptImported);
    PlanRunsThrough(base, raises, transcriptImported);
    trace := trace + steps;
    assert trace[1..] == steps;
    assert forall k :: 1 <= k < |trace| ==> trace[k] == steps[k - 1];
  }

  // ---------------------------------------------------------------------
  // The directory loop
  // ---------------------------------------------------------------------

  predicate IsWav(name: string)
  {
    EndsWith(name, ".wav")
  }

  /** The input paths of the ".wav" entries of the audio folder, in listing order. */
  function WavInputs(listing: seq<string>): seq<string>
  {
    if listing == [] then []
    else
      WavInputs(listing[..|listing| - 1])
        + (if IsWav(listing[|listing| - 1]) then [PathJoin(DataFolder, listing[|listing| - 1])] else [])
  }

  /** The inputs of a shorter listing come first among those of a longer one. */
  lemma {:induction false} WavInputsPrefix(listing: seq<string>, i: nat)
    requires i <= |listing|
    ensures WavInputs(listing[..i]) <= WavInputs(listing)
    decreases |listing| - i
  {
    if i < |listing| {
      WavInputsPrefix(listing, i + 1);
      assert listing[..i + 1][..i] == listing[..i];
    } else {
      assert listing[..i] == listing;
    }
  }

  /** How the run of main.py:64-82 ends: the program exits at once when the
      diarization pipeline cannot be created; otherwise process_file is called on
      `inputs`, and `complete` says that the loop got through the whole listing
      and "Processing complete." is printed. */
  datatype FolderRun = NoPipeline | Ran(inputs: seq<string>, complete: bool)

  /** main.py:64-82: the ".wav" entries are processed in listing order until one
      whose preprocessing raises, which nothing catches, ends the program. */
  method ProcessDataFolder(pipelineReady: bool, listing: seq<string>, preprocessing: string -> Preprocessing,
                           raises: Step -> bool, transcriptImported: bool)
    returns (run: FolderRun)
    ensures !pipelineReady <==> run == NoPipeline
    ensures run.Ran? ==>
      && run.inputs <= WavInputs(listing)
      && (forall k :: 0 <= k < |run.inputs| - 1 ==> preprocessing(run.inputs[k]) != ConversionRaised)
      && (run.complete ==>
            && run.inputs == WavInputs(listing)
            && forall k :: 0 <= k < |run.inputs| ==> preprocessing(run.inputs[k]) != ConversionRaised)
      && (!run.complete ==> run.inputs != [] && preprocessing(run.inputs[|run.inputs| - 1]) == ConversionRaised)
    ensures pipelineReady && (forall k :: 0 <= k < |WavInputs(listing)| ==> preprocessing(WavInputs(listing)[k]) != ConversionRaised) ==>
      run == Ran(WavInputs(listing), true)
  {
    if !pipelineReady {
      return NoPipeline;
    }
    var processed: seq<string> := [];
    for i := 0 to |listing|
      invariant processed == WavInputs(listing[..i])
      invariant forall k :: 0 <= k < |processed| ==> preprocessing(processed[k]) != ConversionRaised
    {
      assert listing[..i + 1][..i] == listing[..i];
      if IsWav(listing[i]) {
        var inputPath := PathJoin(DataFolder, listing[i]);
        var _, result := ProcessFile(inputPath, preprocessing(inputPath), raises, transcriptImported);
        processed := processed + [inputPath];
        if result == Aborted {
          WavInputsPrefix(listing, i + 1);
          return Ran(processed, false);
        }
      }
    }
    assert listing[..|listing|] == listing;
    return Ran(processed, true);
  }

  predicate ListsWav(listing: seq<string>, path: string)
  {
    exists i :: 0 <= i < |listing| && IsWav(listing[i]) && path == PathJoin(DataFolder, listing[i])
  }

  lemma {:induction false} ListsWavStep(listing: seq<string>, path: string)
    requires listing != []
    ensures var last := listing[|listing| - 1];
      (ListsWav(listing, path) <==>
        ListsWav(listing[..|listing| - 1], path) || (IsWav(last) && path == PathJoin(DataFolder, last)))
  {
    var init := listing[..|listing| - 1];
    if ListsWav(init, path) {
      var i :| 0 <= i < |init| && IsWav(init[i]) && path == PathJoin(DataFolder, init[i]);
      assert listing[i] == init[i];
    }
    if ListsWav(listing, path) {
      var i :| 0 <= i < |listing| && IsWav(listing[i]) && path == PathJoin(DataFolder, listing[i]);
      if i < |init| {
        assert init[i] == listing[i];
      }
    }
  }

  /** A path is processed exactly when it is the audio-folder path of a ".wav" entry. */
  lemma {:induction false} WavInputsMembership(listing: seq<string>, path: string)
    ensures path in WavInputs(listing) <==> ListsWav(listing, path)
    decreases |listing|
  {
    if listing != [] {
      WavInputsMembership(listing[..|listing| - 1], path);
      ListsWavStep(listing, path);
    }
  }
}
