/** The JSON documents the core reads: transcripts, analysis results and the
    nested report data. An object keeps its members in document order, as a
    Python dict does after `json.load`. */
module JsonValues {
  import opened Common

  datatype Json =
    | JNull
    | JBool(b: bool)
    | JNumber(n: real)
    | JString(s: string)
    | JArray(items: seq<Json>)
    | JObject(fields: seq<(string, Json)>)

  /** `key in d` for a dict `d`. */
  predicate HasKey(fields: seq<(string, Json)>, key: string)
  {
    exists i :: 0 <= i < |fields| && fields[i].0 == key
  }

  /** A dict built by `json.load` has no repeated key: a repeated key in the
      document keeps only its last value. */
  predicate DistinctKeys(fields: seq<(string, Json)>)
  {
    forall i, j :: 0 <= i < j < |fields| ==> fields[i].0 != fields[j].0
  }

  /** `d[key]` when present: the value of the first member with that key, which
      for a dict with distinct keys is the only one (see GetDistinct). */
  function Get(fields: seq<(string, Json)>, key: string): (r: Option<Json>)
    ensures r.Some? <==> HasKey(fields, key)
    ensures r.Some? ==> exists i :: 0 <= i < |fields| && fields[i] == (key, r.value)
  {
    if fields == [] then None
    else if fields[0].0 == key then Some(fields[0].1)
    else
      var r := Get(fields[1..], key);
      assert forall i :: 0 <= i < |fields| - 1 ==> fields[1..][i] == fields[i + 1];
      r
  }

  /** In a dict with distinct keys, a key finds the value of the one member that
      carries it. */
  lemma {:induction false} GetDistinct(fields: seq<(string, Json)>, key: string, i: nat)
    requires DistinctKeys(fields) && i < |fields| && fields[i].0 == key
    ensures Get(fields, key) == Some(fields[i].1)
    decreases |fields|
  {
    if i > 0 {
      assert fields[0].0 != key;
      var rest := fields[1..];
      assert DistinctKeys(rest) by {
        forall a, b | 0 <= a < b < |rest| ensures rest[a].0 != rest[b].0 {
          assert rest[a] == fields[a + 1] && rest[b] == fields[b + 1];
        }
      }
      assert rest[i - 1] == fields[i];
      GetDistinct(rest, key, i - 1);
    }
  }

  /** `d.get(key, default)`. */
  function GetOr(fields: seq<(string, Json)>, key: string, default: Json): Json
  {
    match Get(fields, key)
    case Some(v) => v
    case None => default
  }
}
