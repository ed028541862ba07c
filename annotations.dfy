/** The time-interval and labelled-track vocabulary shared by the refiner,
    the transcript builder, the RTTM reader and the timeline metrics
    (pyannote's `Segment` and the `(segment, track, label)` triples that
    `Annotation.itertracks(yield_label=True)` yields). */
module Annotations {

  /** A time interval in seconds; times are exact reals in the model. */
  datatype Segment = Segment(start: real, end: real)

  function Duration(s: Segment): real
  {
    s.end - s.start
  }

  /** One entry of an annotation: an interval and its speaker label. */
  datatype Track = Track(segment: Segment, speaker: string)

  function Segments(ts: seq<Track>): (r: seq<Segment>)
    ensures |r| == |ts|
    ensures forall i :: 0 <= i < |ts| ==> r[i] == ts[i].segment
  {
    seq(|ts|, i requires 0 <= i < |ts| => ts[i].segment)
  }

  function Labels(ts: seq<Track>): (r: seq<string>)
    ensures |r| == |ts|
    ensures forall i :: 0 <= i < |ts| ==> r[i] == ts[i].speaker
  {
    seq(|ts|, i requires 0 <= i < |ts| => ts[i].speaker)
  }
}
