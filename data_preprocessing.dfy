/** The text utilities of src/data_preprocessing.py that surround the
    language-model calls: cutting a transcript into chunks of whole lines,
    keeping speaker labels consistent across chunks with a registry that
    lives as long as the program, dropping repeated statements, and turning
    a topic into a file name. The model's answers are inputs here. */
module DataPreprocessing {
  import opened Common

  // ---------------------------------------------------------------------
  // split_transcript (src/data_preprocessing.py:33-49)
  // ---------------------------------------------------------------------

  /** The text a chunk holds before it is stripped. The first chunk starts from
      the empty text and gets a newline in front of each of its lines; every
      later chunk starts from the line that did not fit into the previous one. */
  function ChunkText(group: seq<string>, first: bool): string
  {
    if first then (if group == [] then "" else "\n" + Join(group, "\n"))
    else Join(group, "\n")
  }

  /** A chunk of two or more lines, and a non-empty first chunk, is never longer
      than the limit: it only grew by lines that fitted. */
  predicate Fits(group: seq<string>, first: bool, maxLength: int)
  {
    (|group| >= 2 || (first && group != [])) ==> |ChunkText(group, first)| <= maxLength
  }

  /** A chunk is closed only when the next line does not fit into it. */
  predicate Overflows(group: seq<string>, first: bool, next: seq<string>, maxLength: int)
  {
    next != [] && |ChunkText(group, first)| + |next[0]| + 1 > maxLength
  }

  /** No chunk but the first is empty, each chunk is within the limit unless it
      is a single overlong line, and each chunk was closed only because the next
      line would have overflowed it. */
  predicate Greedy(groups: seq<seq<string>>, maxLength: int)
  {
    && (forall k :: 0 < k < |groups| ==> groups[k] != [])
    && (forall k :: 0 <= k < |groups| ==> Fits(groups[k], k == 0, maxLength))
    && (forall k :: 0 <= k < |groups| - 1 ==> ClosedByOverflow(groups, k, maxLength))
  }

  /** Chunk `k` was closed because chunk `k + 1` starts with a line that did not fit. */
  predicate ClosedByOverflow(groups: seq<seq<string>>, k: nat, maxLength: int)
    requires k < |groups| - 1
  {
    Overflows(groups[k], k == 0, groups[k + 1], maxLength)
  }

  /** `groups` cuts `lines` greedily into chunks of whole lines, in order, every
      line in exactly one chunk. */
  predicate IsChunking(lines: seq<string>, maxLength: int, groups: seq<seq<string>>)
  {
    Concat(groups) == lines && Greedy(groups, maxLength)
  }

  /** The stripped text of each chunk. */
  function Rendered(groups: seq<seq<string>>): (r: seq<string>)
    ensures |r| == |groups|
  {
    seq(|groups|, k requires 0 <= k < |groups| => Strip(ChunkText(groups[k], k == 0)))
  }

  /** What split_transcript returns for `lines`: the stripped texts of a greedy cut
      of the lines, where a last chunk with no text (a final empty line that
      started a chunk of its own) is not emitted. Every chunk of two or more
      lines, and a non-empty first chunk, is within the limit, and an overlong
      first line leaves an empty first chunk in front of it. */
  ghost predicate SplitResult(lines: seq<string>, maxLength: int, chunks: seq<string>, groups: seq<seq<string>>)
  {
    && IsChunking(lines, maxLength, groups)
    && chunks == (if |groups| >= 2 && groups[|groups| - 1] == [""] then Rendered(groups[..|groups| - 1])
                  else Rendered(groups))
    && (forall k :: 0 <= k < |chunks| && (|groups[k]| >= 2 || (k == 0 && groups[k] != [])) ==>
          |chunks[k]| <= maxLength)
    && (lines != [] && |lines[0]| + 1 > maxLength ==> chunks != [] && chunks[0] == "")
  }

  /** src/data_preprocessing.py:33-49. */
  method SplitTranscript(transcript: string, maxLength: int) returns (chunks: seq<string>)
    ensures exists groups :: SplitResult(SplitOn(transcript, '\n'), maxLength, chunks, groups)
  {
    var lines := SplitOn(transcript, '\n');
    chunks := [];
    var current := "";
    ghost var groups := [];
    ghost var open: seq<string> := [];
    ProgressStart(lines, maxLength);
    for i := 0 to |lines|
      invariant Progress(lines, i, maxLength, groups, open, current, chunks)
    {
      if |current| + |lines[i]| + 1 > maxLength {
        ProgressClose(lines, i, maxLength, groups, open, current, chunks);
        chunks := chunks + [Strip(current)];
        groups := groups + [open];
        open := [lines[i]];
        current := lines[i];
      } else {
        ProgressGrow(lines, i, maxLength, groups, open, current, chunks);
        current := current + "\n" + lines[i];
        open := open + [lines[i]];
      }
    }
    ProgressDone(lines, maxLength, groups, open, current, chunks);
    if current != "" {
      chunks := chunks + [Strip(current)];
    }
    groups := groups + [open];
    assert SplitResult(lines, maxLength, chunks, groups);
  }

  /** The state of split_transcript after `i` lines: the closed chunks `groups`
      with their stripped texts `chunks`, and the open chunk `open` whose text is
      `current`. */
  ghost predicate Progress(lines: seq<string>, i: nat, maxLength: int, groups: seq<seq<string>>,
                           open: seq<string>, current: string, chunks: seq<string>)
  {
    && i <= |lines|
    && Concat(groups + [open]) == lines[..i]
    && Greedy(groups + [open], maxLength)
    && (i == 0 ==> groups == [] && open == [])
    && (i > 0 ==> open != [])
    && current == ChunkText(open, groups == [])
    && chunks == Rendered(groups)
    && (i > 0 ==> (|lines[0]| + 1 > maxLength <==> groups != [] && groups[0] == []))
  }

  lemma {:induction false} ProgressStart(lines: seq<string>, maxLength: int)
    ensures Progress(lines, 0, maxLength, [], [], "", [])
  {
    assert Concat<string>([[]]) == [];
  }

  lemma {:induction false} ProgressClose(lines: seq<string>, i: nat, maxLength: int, groups: seq<seq<string>>,
                                         open: seq<string>, current: string, chunks: seq<string>)
    requires i < |lines| && Progress(lines, i, maxLength, groups, open, current, chunks)
    requires |current| + |lines[i]| + 1 > maxLength
    ensures Progress(lines, i + 1, maxLength, groups + [open], [lines[i]], lines[i], chunks + [Strip(current)])
  {
    var line := lines[i];
    GreedyClose(groups + [open], line, maxLength);
    RenderedSnoc(groups, open);
    ConcatSnoc(groups + [open], [line]);
    assert Join([line], "\n") == line;
    assert lines[..i + 1] == lines[..i] + [line];
  }

  lemma {:induction false} ProgressGrow(lines: seq<string>, i: nat, maxLength: int, groups: seq<seq<string>>,
                                        open: seq<string>, current: string, chunks: seq<string>)
    requires i < |lines| && Progress(lines, i, maxLength, groups, open, current, chunks)
    requires |current| + |lines[i]| + 1 <= maxLength
    ensures Progress(lines, i + 1, maxLength, groups, open + [lines[i]], current + "\n" + lines[i], chunks)
  {
    var line := lines[i];
    GreedyGrow(groups, open, line, maxLength);
    ChunkTextSnoc(open, line, groups == []);
    ConcatSnoc(groups, open);
    ConcatSnoc(groups, open + [line]);
    assert lines[..i + 1] == lines[..i] + [line];
    if i == 0 {
      assert ChunkText([line], true) == "\n" + line;
    }
  }

  /** After the last line: the open chunk is emitted unless it has no text. */
  lemma {:induction false} ProgressDone(lines: seq<string>, maxLength: int, groups: seq<seq<string>>,
                                        open: seq<string>, current: string, chunks: seq<string>)
    requires lines != [] && Progress(lines, |lines|, maxLength, groups, open, current, chunks)
    ensures SplitResult(lines, maxLength, if current != "" then chunks + [Strip(current)] else chunks, groups + [open])
  {
    var all := groups + [open];
    var result := if current != "" then chunks + [Strip(current)] else chunks;
    assert lines[..|lines|] == lines;
    EmptyChunkText(open, groups == []);
    RenderedSnoc(groups, open);
    GreedyBound(all, maxLength);
    assert all[..|groups|] == groups;
    if |lines[0]| + 1 > maxLength {
      assert all[0] == groups[0];
    }
    assert forall k :: 0 <= k < |result| ==> result[k] == Rendered(all)[k];
  }

  /** Closing the open chunk and starting a new one with a line that does not fit. */
  lemma {:induction false} GreedyClose(groups: seq<seq<string>>, line: string, maxLength: int)
    requires groups != [] && Greedy(groups, maxLength)
    requires |ChunkText(groups[|groups| - 1], |groups| == 1)| + |line| + 1 > maxLength
    ensures Greedy(groups + [[line]], maxLength)
  {
    var g := groups + [[line]];
    forall k | 0 <= k < |g| ensures Fits(g[k], k == 0, maxLength) {
      if k < |groups| {
        assert g[k] == groups[k];
      }
    }
    forall k | 0 <= k < |g| - 1 ensures ClosedByOverflow(g, k, maxLength) {
      assert g[k] == groups[k];
      if k + 1 < |groups| {
        assert g[k + 1] == groups[k + 1];
        assert ClosedByOverflow(groups, k, maxLength);
      } else {
        assert g[k + 1] == [line];
      }
    }
  }

  /** Adding a line that fits to the open chunk. */
  lemma {:induction false} GreedyGrow(closed: seq<seq<string>>, open: seq<string>, line: string, maxLength: int)
    requires Greedy(closed + [open], maxLength)
    requires closed == [] || open != []
    requires |ChunkText(open, closed == [])| + |line| + 1 <= maxLength
    ensures Greedy(closed + [open + [line]], maxLength)
  {
    var before := closed + [open];
    var after := closed + [open + [line]];
    ChunkTextSnoc(open, line, closed == []);
    forall k | 0 <= k < |after| ensures Fits(after[k], k == 0, maxLength) {
      if k < |closed| {
        assert after[k] == before[k];
      }
    }
    forall k | 0 <= k < |after| - 1 ensures ClosedByOverflow(after, k, maxLength) {
      assert after[k] == before[k];
      assert ClosedByOverflow(before, k, maxLength);
      if k + 1 < |closed| {
        assert after[k + 1] == before[k + 1];
      } else {
        assert before[k + 1] == open && after[k + 1][0] == open[0];
      }
    }
    forall k | 0 < k < |after| ensures after[k] != [] {
      if k < |closed| {
        assert after[k] == before[k];
      }
    }
  }

  /** Stripping never lengthens a chunk, so the greedy bound carries over to the chunks. */
  lemma {:induction false} GreedyBound(groups: seq<seq<string>>, maxLength: int)
    requires Greedy(groups, maxLength)
    ensures forall k :: 0 <= k < |groups| && (|groups[k]| >= 2 || (k == 0 && groups[k] != [])) ==>
              |Rendered(groups)[k]| <= maxLength
  {
  }

  lemma {:induction false} RenderedSnoc(groups: seq<seq<string>>, last: seq<string>)
    ensures Rendered(groups + [last]) == Rendered(groups) + [Strip(ChunkText(last, groups == []))]
  {
    var r := Rendered(groups + [last]);
    forall k | 0 <= k < |groups|
      ensures r[k] == Rendered(groups)[k]
    {
      assert (groups + [last])[k] == groups[k];
    }
  }

  lemma {:induction false} ChunkTextSnoc(group: seq<string>, line: string, first: bool)
    requires first || group != []
    ensures ChunkText(group + [line], first) == ChunkText(group, first) + "\n" + line
  {
    var g := group + [line];
    if group == [] {
      assert g == [line];
    } else {
      assert g[..|g| - 1] == group;
      assert Join(g, "\n") == Join(group, "\n") + "\n" + line;
    }
  }

  /** The only unfinished chunk without text is a later chunk holding one empty line. */
  lemma {:induction false} EmptyChunkText(group: seq<string>, first: bool)
    requires group != []
    ensures ChunkText(group, first) == "" <==> !first && group == [""]
  {
    if !first && group == [""] {
      assert Join(group, "\n") == "";
    }
    if |group| >= 2 {
      assert Join(group, "\n") == Join(group[..|group| - 1], "\n") + "\n" + group[|group| - 1];
    }
  }

  // ---------------------------------------------------------------------
  // label_speakers_consistently (src/data_preprocessing.py:52-65)
  // ---------------------------------------------------------------------

  /** One labelled statement of the model's answer. */
  datatype Entry = Entry(speaker: string, text: string)

  predicate IsGeneric(speaker: string)
  {
    speaker == "client" || speaker == "employee"
  }

  function Speakers(entries: seq<Entry>): (r: seq<string>)
    ensures |r| == |entries|
  {
    seq(|entries|, i requires 0 <= i < |entries| => entries[i].speaker)
  }

  /** The known speakers, in insertion order, after seeing `speakers`: each new
      speaker that is not generic is added at the end. */
  function Learn(known: seq<string>, speakers: seq<string>): seq<string>
  {
    if speakers == [] then known
    else LearnOne(Learn(known, speakers[..|speakers| - 1]), speakers[|speakers| - 1])
  }

  function LearnOne(known: seq<string>, speaker: string): seq<string>
  {
    if speaker !in known && !IsGeneric(speaker) then known + [speaker] else known
  }

  /** The label an entry ends up with, given the known speakers when it is reached. */
  function Relabelled(known: seq<string>, speaker: string): string
  {
    if IsGeneric(speaker) && known != [] then known[0] else speaker
  }

  predicate NoneRepeated(xs: seq<string>)
  {
    forall i, j :: 0 <= i < j < |xs| ==> xs[i] != xs[j]
  }

  predicate NoneGeneric(xs: seq<string>)
  {
    forall i :: 0 <= i < |xs| ==> !IsGeneric(xs[i])
  }

  /** The module-level `known_speakers` dict. Its values equal its keys, so it is
      the list of its keys in insertion order. */
  class SpeakerRegistry {
    var known: seq<string>

    predicate Valid()
      reads this
    {
      NoneRepeated(known) && NoneGeneric(known)
    }

    /** src/data_preprocessing.py:52: the registry starts empty. */
    constructor()
      ensures known == [] && Valid()
    {
      known := [];
    }

    /** src/data_preprocessing.py:54-65. */
    method LabelSpeakersConsistently(chunk: seq<Entry>) returns (result: seq<Entry>)
      requires Valid()
      modifies this
      ensures Valid()
      ensures known == Learn(old(known), Speakers(chunk))
      ensures |result| == |chunk|
      ensures forall i :: 0 <= i < |chunk| ==>
        result[i] == Entry(Relabelled(Learn(old(known), Speakers(chunk)[..i]), chunk[i].speaker), chunk[i].text)
      ensures forall i :: 0 <= i < |chunk| && !IsGeneric(chunk[i].speaker) ==> result[i] == chunk[i]
    {
      ghost var start := known;
      result := [];
      for i := 0 to |chunk|
        invariant Labelled(start, chunk, i, known, result)
      {
        var speaker := chunk[i].speaker;
        LabelStep(start, chunk, i, known, result);
        if speaker !in known && !IsGeneric(speaker) {
          known := known + [speaker];
          result := result + [chunk[i]];
        } else if IsGeneric(speaker) {
          var name := if known != [] then known[0] else speaker;
          result := result + [Entry(name, chunk[i].text)];
        } else {
          result := result + [chunk[i]];
        }
      }
      assert Speakers(chunk)[..|chunk|] == Speakers(chunk);
    }
  }

  /** The registry and the relabelled entries after the first `i` entries of `chunk`. */
  ghost predicate Labelled(start: seq<string>, chunk: seq<Entry>, i: nat, known: seq<string>, result: seq<Entry>)
  {
    && i <= |chunk|
    && known == Learn(start, Speakers(chunk)[..i])
    && NoneRepeated(known) && NoneGeneric(known)
    && |result| == i
    && forall j :: 0 <= j < i ==>
         result[j] == Entry(Relabelled(Learn(start, Speakers(chunk)[..j]), chunk[j].speaker), chunk[j].text)
  }

  lemma {:induction false} LabelStep(start: seq<string>, chunk: seq<Entry>, i: nat, known: seq<string>, result: seq<Entry>)
    requires i < |chunk| && Labelled(start, chunk, i, known, result)
    ensures Labelled(start, chunk, i + 1, LearnOne(known, chunk[i].speaker),
                     result + [Entry(Relabelled(known, chunk[i].speaker), chunk[i].text)])
  {
    var speakers := Speakers(chunk);
    assert speakers[..i + 1][..i] == speakers[..i];
    var next := LearnOne(known, chunk[i].speaker);
    assert next == Learn(start, speakers[..i + 1]);
    if next != known {
      forall a, b | 0 <= a < b < |next| ensures next[a] != next[b] {
        if b < |known| {
          assert next[a] == known[a] && next[b] == known[b];
        } else {
          assert next[a] == known[a];
        }
      }
    }
  }

  /** The registry only grows: the speakers known before stay, in their places. */
  lemma {:induction false} LearnExtends(known: seq<string>, speakers: seq<string>)
    ensures |Learn(known, speakers)| >= |known| && Learn(known, speakers)[..|known|] == known
    decreases |speakers|
  {
    if speakers != [] {
      var k := Learn(known, speakers[..|speakers| - 1]);
      LearnExtends(known, speakers[..|speakers| - 1]);
      assert (k + [speakers[|speakers| - 1]])[..|known|] == k[..|known|];
    }
  }

  /** A speaker is known afterwards exactly when it was known before or it is a
      non-generic speaker of the chunk. */
  lemma {:induction false} LearnMembers(known: seq<string>, speakers: seq<string>, x: string)
    ensures x in Learn(known, speakers) <==> x in known || (x in speakers && !IsGeneric(x))
    decreases |speakers|
  {
    if speakers != [] {
      var init := speakers[..|speakers| - 1];
      LearnMembers(known, init, x);
      assert speakers == init + [speakers[|speakers| - 1]];
    }
  }

  /** Two calls in a row know what one call on both chunks would know. */
  lemma {:induction false} LearnConcat(known: seq<string>, a: seq<string>, b: seq<string>)
    ensures Learn(Learn(known, a), b) == Learn(known, a + b)
    decreases |b|
  {
    if b == [] {
      assert a + b == a;
    } else {
      var ab := a + b;
      assert ab[..|ab| - 1] == a + b[..|b| - 1];
      assert ab[|ab| - 1] == b[|b| - 1];
      LearnConcat(known, a, b[..|b| - 1]);
    }
  }

  predicate AllGeneric(speakers: seq<string>)
  {
    forall i :: 0 <= i < |speakers| ==> IsGeneric(speakers[i])
  }

  /** The first non-generic speaker of a list, if any. */
  function FirstNonGeneric(speakers: seq<string>): (r: Option<string>)
    ensures r.Some? ==> r.value in speakers && !IsGeneric(r.value)
    ensures r.None? <==> AllGeneric(speakers)
  {
    if speakers == [] then None
    else
      var init := speakers[..|speakers| - 1];
      var s := speakers[|speakers| - 1];
      match FirstNonGeneric(init)
      case Some(x) => assert x in speakers; Some(x)
      case None => if IsGeneric(s) then None else Some(s)
  }

  /** The first entry of the registry is the first non-generic speaker it ever saw. */
  lemma {:induction false} FirstKnown(known: seq<string>, speakers: seq<string>)
    ensures Learn(known, speakers) == [] <==> known == [] && FirstNonGeneric(speakers).None?
    ensures Learn(known, speakers) != [] ==>
      Learn(known, speakers)[0] == if known != [] then known[0] else FirstNonGeneric(speakers).value
    decreases |speakers|
  {
    if speakers != [] {
      FirstKnown(known, speakers[..|speakers| - 1]);
    }
  }

  /** src/data_preprocessing.py:61-63: a generic "client" or "employee" becomes the
      first speaker ever registered, before this call or earlier in it, and stays
      as it is while there is none. */
  lemma GenericGetsFirstKnown(known: seq<string>, earlier: seq<string>, speaker: string)
    requires IsGeneric(speaker)
    ensures Relabelled(Learn(known, earlier), speaker)
      == if known != [] then known[0]
         else match FirstNonGeneric(earlier) case Some(x) => x case None => speaker
  {
    FirstKnown(known, earlier);
  }

  // ---------------------------------------------------------------------
  // The de-duplication loop (src/data_preprocessing.py:96-104)
  // ---------------------------------------------------------------------

  predicate HasText(entries: seq<Entry>, t: string)
  {
    exists i :: 0 <= i < |entries| && entries[i].text == t
  }

  /** The entries whose text has not been seen before, in order. */
  function FirstOccurrences(entries: seq<Entry>): seq<Entry>
  {
    if entries == [] then []
    else
      var init := entries[..|entries| - 1];
      var last := entries[|entries| - 1];
      FirstOccurrences(init) + (if HasText(init, last.text) then [] else [last])
  }

  /** The position of the first entry with text `t`. */
  function FirstIndex(entries: seq<Entry>, t: string): (r: nat)
    requires HasText(entries, t)
    ensures r < |entries| && entries[r].text == t
    ensures forall j :: 0 <= j < r ==> entries[j].text != t
  {
    var init := entries[..|entries| - 1];
    if HasText(init, t) then
      var r := FirstIndex(init, t);
      assert entries[r] == init[r];
      r
    else
      assert forall j :: 0 <= j < |init| ==> entries[j] == init[j];
      |entries| - 1
  }

  lemma {:induction false} HasTextStep(entries: seq<Entry>, t: string)
    requires entries != []
    ensures HasText(entries, t) <==> HasText(entries[..|entries| - 1], t) || entries[|entries| - 1].text == t
  {
    var init := entries[..|entries| - 1];
    if HasText(init, t) {
      var i :| 0 <= i < |init| && init[i].text == t;
      assert entries[i] == init[i];
    }
    if HasText(entries, t) {
      var i :| 0 <= i < |entries| && entries[i].text == t;
      if i < |init| {
        assert init[i] == entries[i];
      }
    }
  }

  /** src/data_preprocessing.py:96-104, with `seen_texts` as a set. */
  method RemoveDuplicates(entries: seq<Entry>) returns (unique: seq<Entry>)
    ensures unique == FirstOccurrences(entries)
  {
    unique := [];
    var seen: set<string> := {};
    for i := 0 to |entries|
      invariant unique == FirstOccurrences(entries[..i])
      invariant forall t :: t in seen <==> HasText(entries[..i], t)
    {
      var prefix := entries[..i + 1];
      assert prefix[..i] == entries[..i];
      forall t
        ensures HasText(prefix, t) <==> HasText(entries[..i], t) || entries[i].text == t
      {
        HasTextStep(prefix, t);
      }
      if entries[i].text !in seen {
        seen := seen + {entries[i].text};
        unique := unique + [entries[i]];
      }
    }
    assert entries[..|entries|] == entries;
  }

  predicate DistinctTexts(entries: seq<Entry>)
  {
    forall i, j :: 0 <= i < j < |entries| ==> entries[i].text != entries[j].text
  }

  /** Every text of the input survives, and nothing else. */
  lemma {:induction false} FirstOccurrencesTexts(entries: seq<Entry>, t: string)
    ensures HasText(FirstOccurrences(entries), t) <==> HasText(entries, t)
    decreases |entries|
  {
    if entries != [] {
      var init := entries[..|entries| - 1];
      var last := entries[|entries| - 1];
      var extra: seq<Entry> := if HasText(init, last.text) then [] else [last];
      assert FirstOccurrences(entries) == FirstOccurrences(init) + extra;
      FirstOccurrencesTexts(init, t);
      HasTextStep(entries, t);
      HasTextConcat(FirstOccurrences(init), extra, t);
      if extra != [] {
        assert extra[0] == last;
      }
    }
  }

  lemma {:induction false} HasTextConcat(a: seq<Entry>, b: seq<Entry>, t: string)
    ensures HasText(a + b, t) <==> HasText(a, t) || HasText(b, t)
  {
    var ab := a + b;
    if HasText(a, t) {
      var i :| 0 <= i < |a| && a[i].text == t;
      assert ab[i] == a[i];
    }
    if HasText(b, t) {
      var i :| 0 <= i < |b| && b[i].text == t;
      assert ab[|a| + i] == b[i];
    }
    if HasText(ab, t) {
      var i :| 0 <= i < |ab| && ab[i].text == t;
      if i < |a| {
        assert a[i] == ab[i];
      } else {
        assert b[i - |a|] == ab[i];
      }
    }
  }

  /** No two kept entries share a text. */
  lemma {:induction false} FirstOccurrencesDistinct(entries: seq<Entry>)
    ensures DistinctTexts(FirstOccurrences(entries))
    decreases |entries|
  {
    if entries != [] {
      var init := entries[..|entries| - 1];
      var last := entries[|entries| - 1];
      var kept := FirstOccurrences(init);
      FirstOccurrencesDistinct(init);
      if !HasText(init, last.text) {
        FirstOccurrencesTexts(init, last.text);
        var r := kept + [last];
        forall i, j | 0 <= i < j < |r| ensures r[i].text != r[j].text {
          if j == |kept| {
            assert r[i] == kept[i];
          } else {
            assert r[i] == kept[i] && r[j] == kept[j];
          }
        }
      }
    }
  }

  /** Each kept entry is the first entry of the input with its text. */
  predicate KeptAreFirst(entries: seq<Entry>, kept: seq<Entry>)
  {
    forall j :: 0 <= j < |kept| ==> HasText(entries, kept[j].text) && kept[j] == entries[FirstIndex(entries, kept[j].text)]
  }

  /** The kept entries appear in the order of their first positions in the input. */
  predicate KeptInOrder(entries: seq<Entry>, kept: seq<Entry>)
  {
    forall j1, j2 :: 0 <= j1 < j2 < |kept| ==>
      HasText(entries, kept[j1].text) && HasText(entries, kept[j2].text)
      && FirstIndex(entries, kept[j1].text) < FirstIndex(entries, kept[j2].text)
  }

  /** A text already present keeps its first position when an entry is appended. */
  lemma {:induction false} FirstIndexStable(entries: seq<Entry>, t: string)
    requires entries != [] && HasText(entries[..|entries| - 1], t)
    ensures HasText(entries, t) && FirstIndex(entries, t) == FirstIndex(entries[..|entries| - 1], t)
  {
    HasTextStep(entries, t);
  }

  /** Each kept entry is the first with its text, and the kept entries keep the
      order of the input. */
  lemma {:induction false} FirstOccurrencesAreFirst(entries: seq<Entry>)
    ensures KeptAreFirst(entries, FirstOccurrences(entries))
    ensures KeptInOrder(entries, FirstOccurrences(entries))
    decreases |entries|
  {
    if entries != [] {
      var init := entries[..|entries| - 1];
      var last := entries[|entries| - 1];
      var kept := FirstOccurrences(init);
      var extra: seq<Entry> := if HasText(init, last.text) then [] else [last];
      var r := kept + extra;
      assert FirstOccurrences(entries) == r;
      FirstOccurrencesAreFirst(init);
      forall j | 0 <= j < |kept|
        ensures HasText(entries, kept[j].text) && kept[j] == entries[FirstIndex(entries, kept[j].text)]
        ensures FirstIndex(entries, kept[j].text) < |init|
      {
        assert HasText(init, kept[j].text);
        FirstIndexStable(entries, kept[j].text);
        assert entries[FirstIndex(init, kept[j].text)] == init[FirstIndex(init, kept[j].text)];
      }
      if extra != [] {
        HasTextStep(entries, last.text);
        assert FirstIndex(entries, last.text) == |entries| - 1;
      }
      forall j | 0 <= j < |r|
        ensures HasText(entries, r[j].text) && r[j] == entries[FirstIndex(entries, r[j].text)]
      {
        if j < |kept| {
          assert r[j] == kept[j];
        }
      }
      forall j1, j2 | 0 <= j1 < j2 < |r|
        ensures HasText(entries, r[j1].text) && HasText(entries, r[j2].text)
        ensures FirstIndex(entries, r[j1].text) < FirstIndex(entries, r[j2].text)
      {
        assert r[j1] == kept[j1];
        if j2 < |kept| {
          assert r[j2] == kept[j2];
          assert FirstIndex(init, kept[j1].text) < FirstIndex(init, kept[j2].text);
        } else {
          assert r[j2] == last;
        }
      }
    }
  }

  // ---------------------------------------------------------------------
  // Topic and file name (src/data_preprocessing.py:111-113, 120)
  // ---------------------------------------------------------------------

  const GeneralTopic := "general_topic"
  const LabeledSuffix := "_labeled_transcript.json"

  /** A character of the lower-cased topic, with space, slash and backslash made underscores. */
  function TopicChar(c: char): char
  {
    var l := LowerChar(c);
    if l == ' ' || l == '/' || l == '\\' then '_' else l
  }

  predicate IsCleanTopicChar(c: char)
  {
    c != ' ' && c != '/' && c != '\\' && !IsUpper(c)
  }

  /** src/data_preprocessing.py:111-113: `response` is the model's answer. */
  function SanitizedTopic(response: string): string
  {
    var main := ReplaceChar(Lower(Strip(response)), ' ', '_');
    var sanitized := ReplaceChar(ReplaceChar(main, '/', '_'), '\\', '_');
    if sanitized == [] then GeneralTopic else sanitized
  }

  /** The stripped answer mapped character by character. */
  function TopicChars(s: string): (r: string)
    ensures |r| == |s|
  {
    seq(|s|, i requires 0 <= i < |s| => TopicChar(s[i]))
  }

  predicate IsCleanTopic(t: string)
  {
    && t != [] && !IsWhitespace(t[0]) && !IsWhitespace(t[|t| - 1])
    && forall i :: 0 <= i < |t| ==> IsCleanTopicChar(t[i])
  }

  lemma TopicCharClean(c: char)
    ensures IsCleanTopicChar(TopicChar(c))
    ensures !IsWhitespace(c) ==> !IsWhitespace(TopicChar(c))
  {
  }

  lemma {:induction false} SanitizedAsTopicChars(response: string)
    requires Strip(response) != []
    ensures SanitizedTopic(response) == TopicChars(Strip(response))
  {
    var s := Strip(response);
    var main := ReplaceChar(Lower(s), ' ', '_');
    var sanitized := ReplaceChar(ReplaceChar(main, '/', '_'), '\\', '_');
    assert forall i :: 0 <= i < |s| ==> sanitized[i] == TopicChars(s)[i];
  }

  /** src/data_preprocessing.py:111-113: the sanitised topic is "general_topic" for a
      blank answer and otherwise the stripped answer mapped character by
      character; either way it is a non-empty text with no space, slash,
      backslash or upper-case letter and no surrounding whitespace. */
  lemma {:induction false} SanitizedTopicShape(response: string)
    ensures Strip(response) == [] ==> SanitizedTopic(response) == GeneralTopic
    ensures Strip(response) != [] ==> SanitizedTopic(response) == TopicChars(Strip(response))
    ensures IsCleanTopic(SanitizedTopic(response))
  {
    var s := Strip(response);
    if s == [] {
      assert GeneralTopic == ['g', 'e', 'n', 'e', 'r', 'a', 'l', '_', 't', 'o', 'p', 'i', 'c'];
    } else {
      SanitizedAsTopicChars(response);
      var r := TopicChars(s);
      forall i | 0 <= i < |r| ensures IsCleanTopicChar(r[i]) {
        TopicCharClean(s[i]);
      }
      TopicCharClean(s[0]);
      TopicCharClean(s[|s| - 1]);
    }
  }

  lemma {:induction false} StripClean(t: string)
    requires t != [] && !IsWhitespace(t[0]) && !IsWhitespace(t[|t| - 1])
    ensures Strip(t) == t
  {
  }

  /** A clean topic is its own sanitised form. */
  lemma {:induction false} CleanTopicFixed(t: string)
    requires IsCleanTopic(t)
    ensures SanitizedTopic(t) == t
  {
    StripClean(t);
    SanitizedAsTopicChars(t);
    assert forall i :: 0 <= i < |t| ==> TopicChar(t[i]) == t[i];
  }

  /** Sanitising a sanitised topic changes nothing. */
  lemma {:induction false} SanitizedTopicIdempotent(response: string)
    ensures SanitizedTopic(SanitizedTopic(response)) == SanitizedTopic(response)
  {
    SanitizedTopicShape(response);
    CleanTopicFixed(SanitizedTopic(response));
  }

  /** src/data_preprocessing.py:120. */
  function LabeledTranscriptName(topic: string): string
  {
    topic + LabeledSuffix
  }

  /** The topic a labelled-transcript file name was made from. */
  function TopicOfName(name: string): Option<string>
  {
    if EndsWith(name, LabeledSuffix) then Some(name[..|name| - |LabeledSuffix|]) else None
  }

  /** The file name gives the topic back, so different topics get different files. */
  lemma LabeledTranscriptNameRoundTrip(topic: string)
    ensures TopicOfName(LabeledTranscriptName(topic)) == Some(topic)
  {
    var name := LabeledTranscriptName(topic);
    assert name[|name| - |LabeledSuffix|..] == LabeledSuffix;
    assert name[..|name| - |LabeledSuffix|] == topic;
  }
}
