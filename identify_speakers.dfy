/** `refine_diarization` (identify_speakers.py): drop every segment shorter
    than a quarter of a second and rename the remaining raw speaker labels
    `SPEAKER_00`, `SPEAKER_01`, ... in order of first surviving appearance.

    The method keeps the source's loop, its growing `speaker_mapping` and its
    `speaker_count`; it is proved equal to `Refined`, a declarative
    description (filter, then number the distinct labels by first
    appearance), and the promised properties are lemmas about `Refined`. */
module IdentifySpeakers {
  import opened Common
  import opened Annotations

  /** Segments shorter than this are ignored (identify_speakers.py:55). */
  const MinDuration: real := 0.25

  /** `f"SPEAKER_{k:02d}"`. */
  function CanonicalName(k: nat): string
  {
    "SPEAKER_" + PadNat(k, 2)
  }

  lemma {:induction false} CanonicalNameInjective(k: nat, m: nat)
    requires k != m
    ensures CanonicalName(k) != CanonicalName(m)
  {
    PadNatInjective(k, m, 2);
    PrefixCancel("SPEAKER_", PadNat(k, 2), PadNat(m, 2));
  }

  // ---------------------------------------------------------------------
  // The declarative description
  // ---------------------------------------------------------------------

  predicate IsLong(t: Track)
  {
    Duration(t.segment) >= MinDuration
  }

  /** The tracks that survive the duration filter, in input order. */
  function Survivors(raw: seq<Track>): (r: seq<Track>)
    ensures forall t :: t in r ==> t in raw && IsLong(t)
  {
    if raw == [] then []
    else
      var init := Survivors(raw[..|raw| - 1]);
      var t := raw[|raw| - 1];
      if IsLong(t) then init + [t] else init
  }

  predicate Distinct(xs: seq<string>)
  {
    forall i, j :: 0 <= i < j < |xs| ==> xs[i] != xs[j]
  }

  /** The distinct labels of `ts`, each where it first occurs. */
  function FirstAppearance(ts: seq<Track>): (r: seq<string>)
    ensures Distinct(r)
    ensures forall x :: x in r <==> x in Labels(ts)
  {
    if ts == [] then []
    else
      var p := FirstAppearance(ts[..|ts| - 1]);
      var x := ts[|ts| - 1].speaker;
      assert Labels(ts) == Labels(ts[..|ts| - 1]) + [x];
      if x in p then p else p + [x]
  }

  /** The position of the first occurrence of `x`. */
  function IndexOf(xs: seq<string>, x: string): (k: nat)
    requires x in xs
    ensures k < |xs| && xs[k] == x && x !in xs[..k]
  {
    if xs[0] == x then 0 else 1 + IndexOf(xs[1..], x)
  }

  /** Rename each track's label to the canonical name of its position in `order`. */
  function Relabel(ts: seq<Track>, order: seq<string>): (r: seq<Track>)
    requires forall i :: 0 <= i < |ts| ==> ts[i].speaker in order
  {
    seq(|ts|, i requires 0 <= i < |ts| => Track(ts[i].segment, CanonicalName(IndexOf(order, ts[i].speaker))))
  }

  /** The raw labels that receive a canonical name, in the order they receive it. */
  function SpeakerOrder(raw: seq<Track>): seq<string>
  {
    FirstAppearance(Survivors(raw))
  }

  lemma {:induction false} LabelsInFirstAppearance(ts: seq<Track>)
    ensures forall i :: 0 <= i < |ts| ==> ts[i].speaker in FirstAppearance(ts)
  {
    assert forall i :: 0 <= i < |ts| ==> ts[i].speaker == Labels(ts)[i];
  }

  /** Number the labels of `ts` by their first appearance. */
  function Numbered(ts: seq<Track>): seq<Track>
  {
    LabelsInFirstAppearance(ts);
    Relabel(ts, FirstAppearance(ts))
  }

  /** The refined annotation: one track per survivor, in order, with the
      survivor's segment, so that no segment shorter than 0.25 s is left. */
  function Refined(raw: seq<Track>): (r: seq<Track>)
    ensures |r| == |Survivors(raw)|
    ensures forall i :: 0 <= i < |r| ==> r[i].segment == Survivors(raw)[i].segment && Duration(r[i].segment) >= MinDuration
  {
    var r := Numbered(Survivors(raw));
    assert forall i :: 0 <= i < |r| ==> Survivors(raw)[i] in Survivors(raw);
    r
  }

  // ---------------------------------------------------------------------
  // The source's loop
  // ---------------------------------------------------------------------

  /** identify_speakers.py:46-64. `diarization` is the sequence of tracks in
      `itertracks` order. */
  method RefineDiarization(diarization: seq<Track>) returns (refined: seq<Track>)
    ensures refined == Refined(diarization)
  {
    refined := [];
    var speakerMapping: map<string, string> := map[];
    var speakerCount: nat := 0;
    ghost var order: seq<string> := [];
    ghost var surv: seq<Track> := [];
    for i := 0 to |diarization|
      invariant surv == Survivors(diarization[..i])
      invariant order == FirstAppearance(surv)
      invariant speakerCount == |order|
      invariant MapsToPosition(speakerMapping, order)
      invariant refined == Numbered(surv)
    {
      var track := diarization[i];
      SurvivorsStep(diarization, i);
      if Duration(track.segment) >= MinDuration {
        NumberedStep(surv, track);
        if track.speaker !in speakerMapping {
          MappingExtend(speakerMapping, order, track.speaker);
          speakerMapping := speakerMapping[track.speaker := CanonicalName(speakerCount)];
          speakerCount := speakerCount + 1;
          order := order + [track.speaker];
        }
        refined := refined + [Track(track.segment, speakerMapping[track.speaker])];
        surv := surv + [track];
      }
    }
    assert diarization[..|diarization|] == diarization;
  }

  /** `mapping` sends each raw label of `order` to the canonical name of its position. */
  ghost predicate MapsToPosition(mapping: map<string, string>, order: seq<string>)
  {
    && (forall l :: l in mapping <==> l in order)
    && (forall l :: l in mapping ==> mapping[l] == CanonicalName(IndexOf(order, l)))
  }

  lemma {:induction false} MappingExtend(mapping: map<string, string>, order: seq<string>, x: string)
    requires MapsToPosition(mapping, order) && x !in order
    ensures MapsToPosition(mapping[x := CanonicalName(|order|)], order + [x])
  {
    IndexOfLast(order, x);
    forall l | l in order ensures IndexOf(order + [x], l) == IndexOf(order, l) {
      IndexOfExtend(order, x, l);
    }
  }

  /** Numbering one more track: it gets the name of its label's position,
      and the earlier tracks keep theirs. */
  lemma {:induction false} NumberedStep(ts: seq<Track>, t: Track)
    ensures t.speaker in FirstAppearance(ts + [t])
    ensures Numbered(ts + [t]) == Numbered(ts) + [Track(t.segment, CanonicalName(IndexOf(FirstAppearance(ts + [t]), t.speaker)))]
  {
    var order0 := FirstAppearance(ts);
    LabelsInFirstAppearance(ts);
    FirstAppearanceStep(ts, t);
    var order := FirstAppearance(ts + [t]);
    if t.speaker !in order0 {
      RelabelExtend(ts, order0, t.speaker);
    }
    RelabelAppend(ts, t, order);
  }

  lemma {:induction false} SurvivorsStep(raw: seq<Track>, i: nat)
    requires i < |raw|
    ensures Survivors(raw[..i + 1]) == Survivors(raw[..i]) + (if IsLong(raw[i]) then [raw[i]] else [])
  {
    assert raw[..i + 1][..i] == raw[..i];
  }

  lemma {:induction false} LabelsAppend(ts: seq<Track>, t: Track)
    ensures Labels(ts + [t]) == Labels(ts) + [t.speaker]
  {
  }

  lemma {:induction false} FirstAppearanceStep(ts: seq<Track>, t: Track)
    ensures FirstAppearance(ts + [t]) ==
      if t.speaker in FirstAppearance(ts) then FirstAppearance(ts) else FirstAppearance(ts) + [t.speaker]
  {
    assert (ts + [t])[..|ts|] == ts;
  }

  lemma {:induction false} RelabelAppend(ts: seq<Track>, t: Track, order: seq<string>)
    requires forall i :: 0 <= i < |ts| ==> ts[i].speaker in order
    requires t.speaker in order
    ensures Relabel(ts + [t], order) == Relabel(ts, order) + [Track(t.segment, CanonicalName(IndexOf(order, t.speaker)))]
  {
  }

  lemma {:induction false} IndexOfExtend(xs: seq<string>, x: string, y: string)
    requires y in xs
    ensures IndexOf(xs + [x], y) == IndexOf(xs, y)
  {
    if xs[0] != y {
      assert (xs + [x])[1..] == xs[1..] + [x];
      IndexOfExtend(xs[1..], x, y);
    }
  }

  lemma {:induction false} IndexOfLast(xs: seq<string>, x: string)
    requires x !in xs
    ensures IndexOf(xs + [x], x) == |xs|
  {
    var k := IndexOf(xs + [x], x);
    assert (xs + [x])[k] == x;
  }

  lemma {:induction false} RelabelExtend(ts: seq<Track>, order: seq<string>, x: string)
    requires forall i :: 0 <= i < |ts| ==> ts[i].speaker in order
    ensures Relabel(ts, order + [x]) == Relabel(ts, order)
  {
    forall i | 0 <= i < |ts| { IndexOfExtend(order, x, ts[i].speaker); }
  }

  // ---------------------------------------------------------------------
  // Properties of the refined annotation
  // ---------------------------------------------------------------------

  /** A track survives exactly when it is in the input and long enough. */
  lemma {:induction false} SurvivorMembership(raw: seq<Track>, t: Track)
    ensures t in Survivors(raw) <==> t in raw && IsLong(t)
  {
    if raw != [] {
      var init := raw[..|raw| - 1];
      SurvivorMembership(init, t);
      assert raw == init + [raw[|raw| - 1]];
    }
  }

  /** Filtering keeps the input order: it distributes over concatenation. */
  lemma {:induction false} SurvivorsConcat(a: seq<Track>, b: seq<Track>)
    ensures Survivors(a + b) == Survivors(a) + Survivors(b)
    decreases |b|
  {
    if b == [] {
      assert a + b == a;
    } else {
      var b' := b[..|b| - 1];
      assert (a + b)[..|a + b| - 1] == a + b';
      SurvivorsConcat(a, b');
    }
  }

  /** A short track appended to the input changes nothing: it neither takes a
      name nor advances the count. */
  lemma {:induction false} ShortTrackIgnored(raw: seq<Track>, t: Track)
    requires !IsLong(t)
    ensures Refined(raw + [t]) == Refined(raw)
  {
    assert (raw + [t])[..|raw|] == raw;
  }

  /** An input of short segments only gives an empty annotation. */
  lemma {:induction false} AllShortGivesEmpty(raw: seq<Track>)
    requires forall i :: 0 <= i < |raw| ==> Duration(raw[i].segment) < MinDuration
    ensures Refined(raw) == []
  {
    if raw != [] {
      AllShortGivesEmpty(raw[..|raw| - 1]);
    }
  }

  /** A raw label receives a canonical name iff some long track carries it. */
  lemma {:induction false} NamedLabels(raw: seq<Track>, l: string)
    ensures l in SpeakerOrder(raw) <==> exists i :: 0 <= i < |raw| && raw[i].speaker == l && IsLong(raw[i])
  {
    var s := Survivors(raw);
    if l in SpeakerOrder(raw) {
      var k :| 0 <= k < |s| && Labels(s)[k] == l;
      SurvivorMembership(raw, s[k]);
      var i :| 0 <= i < |raw| && raw[i] == s[k];
    }
    if exists i :: 0 <= i < |raw| && raw[i].speaker == l && IsLong(raw[i]) {
      var i :| 0 <= i < |raw| && raw[i].speaker == l && IsLong(raw[i]);
      SurvivorMembership(raw, raw[i]);
      var k :| 0 <= k < |s| && s[k] == raw[i];
      assert Labels(s)[k] == l;
    }
  }

  lemma {:induction false} FirstAppearanceHead(ts: seq<Track>)
    requires ts != []
    ensures FirstAppearance(ts) != [] && FirstAppearance(ts)[0] == ts[0].speaker
  {
    if |ts| > 1 {
      assert ts[..|ts| - 1][0] == ts[0];
      FirstAppearanceHead(ts[..|ts| - 1]);
    }
  }

  /** The first surviving raw label becomes `SPEAKER_00`. */
  lemma {:induction false} FirstSurvivorIsSpeaker00(raw: seq<Track>)
    requires Survivors(raw) != []
    ensures Refined(raw) != [] && Refined(raw)[0].speaker == "SPEAKER_00"
  {
    var s := Survivors(raw);
    FirstAppearanceHead(s);
    assert PadNat(0, 2) == "00";
  }

  lemma {:induction false} IndexOfDistinct(xs: seq<string>, k: nat)
    requires Distinct(xs) && k < |xs|
    ensures IndexOf(xs, xs[k]) == k
  {
    var j := IndexOf(xs, xs[k]);
    assert xs[j] == xs[k];
  }

  /** The k-th name goes to exactly the surviving tracks whose raw label is the
      k-th distinct one; so equal raw labels get equal names and distinct raw
      labels distinct names. */
  lemma {:induction false} KthLabelIsSpeakerK(raw: seq<Track>, i: nat, k: nat)
    requires i < |Survivors(raw)| && k < |SpeakerOrder(raw)|
    ensures Refined(raw)[i].speaker == CanonicalName(k) <==> Survivors(raw)[i].speaker == SpeakerOrder(raw)[k]
  {
    var s := Survivors(raw);
    var order := SpeakerOrder(raw);
    assert s[i].speaker in Labels(s);
    var j := IndexOf(order, s[i].speaker);
    IndexOfDistinct(order, k);
    if j != k { CanonicalNameInjective(j, k); }
  }

  lemma {:induction false} SameRawLabelSameName(raw: seq<Track>, i: nat, j: nat)
    requires i < |Survivors(raw)| && j < |Survivors(raw)|
    ensures Survivors(raw)[i].speaker == Survivors(raw)[j].speaker <==> Refined(raw)[i].speaker == Refined(raw)[j].speaker
  {
    var s := Survivors(raw);
    var order := SpeakerOrder(raw);
    assert s[i].speaker in Labels(s) && s[j].speaker in Labels(s);
    var a := IndexOf(order, s[i].speaker);
    var b := IndexOf(order, s[j].speaker);
    if a != b { CanonicalNameInjective(a, b); }
  }

  /** The canonical names `SPEAKER_00` .. up to `n - 1`, in order. */
  function CanonicalNames(n: nat): (r: seq<string>)
    ensures |r| == n && forall k :: 0 <= k < n ==> r[k] == CanonicalName(k)
  {
    seq(n, k requires 0 <= k < n => CanonicalName(k))
  }

  /** Listing the refined labels in order of first appearance gives exactly
      `SPEAKER_00, SPEAKER_01, ...`, one per distinct surviving raw label. */
  lemma {:induction false} DistinctOutputLabels(raw: seq<Track>)
    ensures FirstAppearance(Refined(raw)) == CanonicalNames(|SpeakerOrder(raw)|)
  {
    var s := Survivors(raw);
    assert forall i :: 0 <= i < |s| ==> s[i].speaker in Labels(s);
    RelabelNames(s, SpeakerOrder(raw));
  }

  lemma {:induction false} RelabelNames(s: seq<Track>, order: seq<string>)
    requires Distinct(order)
    requires forall i :: 0 <= i < |s| ==> s[i].speaker in order
    requires |FirstAppearance(s)| <= |order| && order[..|FirstAppearance(s)|] == FirstAppearance(s)
    ensures FirstAppearance(Relabel(s, order)) == CanonicalNames(|FirstAppearance(s)|)
    decreases |s|
  {
    if s == [] {
      assert Relabel(s, order) == [];
    } else {
      var s' := s[..|s| - 1];
      var t := s[|s| - 1];
      assert s == s' + [t];
      var f := FirstAppearance(s');
      FirstAppearanceStep(s', t);
      assert order[..|f|] == f by {
        assert f == FirstAppearance(s)[..|f|];
      }
      RelabelNames(s', order);
      RelabelNamesStep(s', t, order);
    }
  }

  /** One more track: its canonical name is new exactly when its raw label is. */
  lemma RelabelNamesStep(s: seq<Track>, t: Track, order: seq<string>)
    requires Distinct(order) && t.speaker in order
    requires forall i :: 0 <= i < |s| ==> s[i].speaker in order
    requires |FirstAppearance(s + [t])| <= |order| && order[..|FirstAppearance(s + [t])|] == FirstAppearance(s + [t])
    requires order[..|FirstAppearance(s)|] == FirstAppearance(s)
    requires FirstAppearance(Relabel(s, order)) == CanonicalNames(|FirstAppearance(s)|)
    ensures FirstAppearance(Relabel(s + [t], order)) == CanonicalNames(|FirstAppearance(s + [t])|)
  {
    var x := t.speaker;
    var f := FirstAppearance(s);
    FirstAppearanceStep(s, t);
    var j := IndexOf(order, x);
    if x !in f {
      assert order[|f|] == (f + [x])[|f|];
    }
    PositionOfNext(order, f, x);
    var n := if j < |f| then |f| else |f| + 1;
    assert |FirstAppearance(s + [t])| == n;
    var c := CanonicalName(j);
    calc {
      FirstAppearance(Relabel(s + [t], order));
    == { RelabelAppend(s, t, order); }
      FirstAppearance(Relabel(s, order) + [Track(t.segment, c)]);
    == { FirstAppearanceStep(Relabel(s, order), Track(t.segment, c)); }
      if c in CanonicalNames(|f|) then CanonicalNames(|f|) else CanonicalNames(|f|) + [c];
    == { CanonicalNamesStep(|f|, j); }
      CanonicalNames(n);
    }
  }

  /** A label already listed keeps its earlier position; a new one takes the next. */
  lemma {:induction false} PositionOfNext(order: seq<string>, f: seq<string>, x: string)
    requires Distinct(order) && x in order
    requires |f| <= |order| && order[..|f|] == f
    requires x !in f ==> |f| < |order| && order[|f|] == x
    ensures x in f ==> IndexOf(order, x) < |f|
    ensures x !in f ==> IndexOf(order, x) == |f|
  {
    if x in f {
      var k :| 0 <= k < |f| && f[k] == x;
      assert order[k] == x;
      IndexOfDistinct(order, k);
    } else {
      IndexOfDistinct(order, |f|);
    }
  }

  /** Appending the `j`-th canonical name to the first `n` adds it only when it is new. */
  lemma {:induction false} CanonicalNamesStep(n: nat, j: nat)
    requires j <= n
    ensures (if CanonicalName(j) in CanonicalNames(n) then CanonicalNames(n) else CanonicalNames(n) + [CanonicalName(j)])
      == CanonicalNames(if j < n then n else n + 1)
  {
    if j < n {
      assert CanonicalNames(n)[j] == CanonicalName(j);
    } else {
      forall k | 0 <= k < n ensures CanonicalNames(n)[k] != CanonicalName(j) {
        CanonicalNameInjective(k, j);
      }
      assert CanonicalNames(n + 1) == CanonicalNames(n) + [CanonicalName(n)];
    }
  }

  /** Distinct surviving raw labels are numbered in the order they first occur. */
  lemma {:induction false} FirstAppearanceOrder(ts: seq<Track>, a: nat, b: nat)
    requires a < b < |FirstAppearance(ts)|
    ensures FirstAppearance(ts)[a] in Labels(ts) && FirstAppearance(ts)[b] in Labels(ts)
    ensures IndexOf(Labels(ts), FirstAppearance(ts)[a]) < IndexOf(Labels(ts), FirstAppearance(ts)[b])
  {
    var f := FirstAppearance(ts);
    var init := ts[..|ts| - 1];
    var t := ts[|ts| - 1];
    var x := t.speaker;
    assert ts == init + [t];
    LabelsAppend(init, t);
    FirstAppearanceStep(init, t);
    var p := FirstAppearance(init);
    assert f[a] in f && f[b] in f;
    if x in p || b < |p| {
      assert f[a] == p[a] && f[b] == p[b];
      assert p[a] in p && p[b] in p;
      FirstAppearanceOrder(init, a, b);
      IndexOfExtend(Labels(init), x, p[a]);
      IndexOfExtend(Labels(init), x, p[b]);
    } else {
      assert f[b] == x && f[a] == p[a];
      assert p[a] in p;
      IndexOfExtend(Labels(init), x, p[a]);
      IndexOfLast(Labels(init), x);
    }
  }
}
