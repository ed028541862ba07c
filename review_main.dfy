/** The entry point of the interaction review (src/main.py and its identical
    copy interactionReviewWithGpt/__main__.py): picking the newest transcript
    file of a folder and checking the shape of the loaded JSON before it is
    analysed. `exit(1)` after a reported error is the result None. The folder
    listing is given as `(name, modification time)` pairs in listing order. */
module ReviewMain {
  import opened Common
  import opened JsonValues

  const TranscriptExtension := ".json"

  predicate IsJsonName(name: string)
  {
    EndsWith(name, TranscriptExtension)
  }

  // ---------------------------------------------------------------------
  // The newest file (src/main.py:18-31)
  // ---------------------------------------------------------------------

  /** Entry `i` is the one `files.sort(key=mtime, reverse=True)[0]` picks: a `.json`
      name with the greatest time, and, as the sort is stable, the first such in
      listing order. */
  predicate IsNewest(listing: seq<(string, real)>, i: int)
  {
    && 0 <= i < |listing|
    && IsJsonName(listing[i].0)
    && (forall j :: 0 <= j < |listing| && IsJsonName(listing[j].0) ==> listing[j].1 <= listing[i].1)
    && (forall j :: 0 <= j < i && IsJsonName(listing[j].0) ==> listing[j].1 < listing[i].1)
  }

  predicate HasJson(listing: seq<(string, real)>)
  {
    exists j :: 0 <= j < |listing| && IsJsonName(listing[j].0)
  }

  /** The position of the newest `.json` entry, keeping the earlier one on a tie. */
  function NewestIndex(listing: seq<(string, real)>): (r: Option<nat>)
    ensures r.None? <==> !HasJson(listing)
    ensures r.Some? ==> IsNewest(listing, r.value)
  {
    if listing == [] then None
    else
      var init := listing[..|listing| - 1];
      var last := |listing| - 1;
      var best := NewestIndex(init);
      assert forall j :: 0 <= j < last ==> init[j] == listing[j];
      if IsJsonName(listing[last].0) && (best.None? || listing[last].1 > listing[best.value].1) then
        Some(last)
      else
        assert best.None? ==> !IsJsonName(listing[last].0);
        best
  }

  /** At most one entry is the newest one. */
  lemma NewestUnique(listing: seq<(string, real)>, i: int, k: int)
    requires IsNewest(listing, i) && IsNewest(listing, k)
    ensures i == k
  {
  }

  /** `load_latest_file`: the folder joined with the newest `.json` name, or None when
      the folder holds no `.json` name. */
  function LoadLatestFile(folder: string, listing: seq<(string, real)>): (r: Option<string>)
    ensures r.None? <==> !HasJson(listing)
  {
    match NewestIndex(listing)
    case None => None
    case Some(i) => Some(PathJoin(folder, listing[i].0))
  }

  /** The file loaded is exactly the one the stable newest-first sort puts first. */
  lemma LatestFileIsNewest(folder: string, listing: seq<(string, real)>, i: nat)
    requires IsNewest(listing, i)
    ensures LoadLatestFile(folder, listing) == Some(PathJoin(folder, listing[i].0))
  {
    NewestUnique(listing, i, NewestIndex(listing).value);
  }

  /** Names that do not end in ".json" never influence the choice. */
  lemma {:induction false} NonJsonIgnored(listing: seq<(string, real)>, other: (string, real))
    requires !IsJsonName(other.0)
    ensures NewestIndex(listing + [other]) == NewestIndex(listing)
  {
    assert (listing + [other])[..|listing|] == listing;
  }

  // ---------------------------------------------------------------------
  // The JSON shape (src/main.py:34-48)
  // ---------------------------------------------------------------------

  const MeetingKey := "Meeting"
  const DialogKey := "Dialog"

  predicate AllObjects(items: seq<Json>)
  {
    forall i :: 0 <= i < |items| ==> items[i].JObject?
  }

  /** `data["Meeting"]["Dialog"]` when `data` and `data["Meeting"]` are dicts holding
      those keys and the dialog is a list of dicts; None otherwise. A value that is
      not a dict fails too: `in` or the subscript then misbehaves or raises, and
      any exception ends in `exit(1)`. */
  function ValidateJsonStructure(data: Json): (r: Option<seq<Json>>)
    ensures r.Some? ==>
      && data.JObject?
      && HasKey(data.fields, MeetingKey)
      && Get(data.fields, MeetingKey).value.JObject?
      && Get(Get(data.fields, MeetingKey).value.fields, DialogKey) == Some(JArray(r.value))
      && AllObjects(r.value)
  {
    if !data.JObject? then None
    else
      match Get(data.fields, MeetingKey)
      case None => None
      case Some(meeting) =>
        if !meeting.JObject? then None
        else
          match Get(meeting.fields, DialogKey)
          case None => None
          case Some(dialog) =>
            if dialog.JArray? && AllObjects(dialog.items) then Some(dialog.items) else None
  }

  /** Every failure the source reports: no "Meeting", a "Meeting" without "Dialog",
      a "Dialog" that is not a list, or a list with an element that is not a dict. */
  lemma ValidationFailures(data: Json)
    ensures !data.JObject? ==> ValidateJsonStructure(data).None?
    ensures data.JObject? && !HasKey(data.fields, MeetingKey) ==> ValidateJsonStructure(data).None?
    ensures data.JObject? && HasKey(data.fields, MeetingKey) ==>
      var meeting := Get(data.fields, MeetingKey).value;
      (!meeting.JObject? || !HasKey(meeting.fields, DialogKey)) ==> ValidateJsonStructure(data).None?
    ensures data.JObject? && HasKey(data.fields, MeetingKey) && Get(data.fields, MeetingKey).value.JObject? ==>
      var meeting := Get(data.fields, MeetingKey).value;
      HasKey(meeting.fields, DialogKey) ==>
      var dialog := Get(meeting.fields, DialogKey).value;
      (!dialog.JArray? || !AllObjects(dialog.items)) ==> ValidateJsonStructure(data).None?
  {
  }

  /** A well-shaped document gives back its dialog unchanged, including an empty one. */
  lemma ValidationAccepts(fields: seq<(string, Json)>, meeting: seq<(string, Json)>, items: seq<Json>)
    requires Get(fields, MeetingKey) == Some(JObject(meeting))
    requires Get(meeting, DialogKey) == Some(JArray(items))
    requires AllObjects(items)
    ensures ValidateJsonStructure(JObject(fields)) == Some(items)
  {
  }

  lemma EmptyDialogAccepted()
    ensures ValidateJsonStructure(JObject([(MeetingKey, JObject([(DialogKey, JArray([]))]))])) == Some([])
  {
    var meeting := [(DialogKey, JArray([]))];
    assert Get(meeting, DialogKey) == Some(JArray([]));
  }
}
