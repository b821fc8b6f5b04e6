/** Query-string handling shared by the handlers: `first`, the clamped
    integer parameters (`maxWrites`, `pageSize`) and the comma-separated tag
    list. */
module Request {
  import opened Wrappers
  import opened Text

  /** A query-string value as the HTTP layer delivers it: absent, once, or
      repeated. */
  datatype Param = Missing | One(s: string) | Many(values: seq<string>)

  /** `first(v)`: the value, or the first of repeated values. */
  function First(p: Param): Option<string> {
    match p
    case Missing => None
    case One(s) => Some(s)
    case Many(vs) => if |vs| > 0 then Some(vs[0]) else None
  }

  /** `Math.min(Math.max(parseInt(v ?? String(dflt), 10) || dflt, 1), hi)`:
      always in [1, hi]; an absent value, one that does not parse, and one
      that parses to 0 all give the default; any other value is clamped. */
  function ClampedInt(v: Option<string>, dflt: nat, hi: nat): (r: int)
    requires 1 <= dflt <= hi
    ensures 1 <= r <= hi
    ensures v.None? ==> r == dflt
    ensures v.Some? && (ParseInt(v.value).None? || ParseInt(v.value) == Some(0)) ==> r == dflt
    ensures v.Some? && ParseInt(v.value).Some? && ParseInt(v.value) != Some(0) ==>
              r == (if ParseInt(v.value).value < 1 then 1
                    else if ParseInt(v.value).value > hi then hi
                    else ParseInt(v.value).value)
  {
    ParseIntOfString(dflt);
    var parsed := ParseInt(v.GetOr(IntToString(dflt)));
    Clamp(OrElse(parsed, dflt), 1, hi)
  }

  /** One tag as the handlers normalise it: `t.trim().toLowerCase()`. */
  function CleanTag(t: string): string {
    Lower(Trim(t))
  }

  /** The normalised non-empty pieces, in order. */
  function CleanTags(pieces: seq<string>): (r: seq<string>)
    ensures |r| <= |pieces|
    ensures forall k :: 0 <= k < |r| ==> r[k] != "" && exists j :: 0 <= j < |pieces| && r[k] == CleanTag(pieces[j])
    ensures forall j :: 0 <= j < |pieces| && CleanTag(pieces[j]) != "" ==> CleanTag(pieces[j]) in r
    decreases |pieces|
  {
    if pieces == [] then []
    else
      var rest := CleanTags(pieces[1..]);
      var t := CleanTag(pieces[0]);
      if t == "" then rest else [t] + rest
  }

  /** The comma-separated pieces of the trimmed raw value. */
  function TagPieces(v: Option<string>): seq<string> {
    Split(Trim(v.GetOr("")), ',')
  }

  /** `tagsRaw ? tagsRaw.split(",").map(t => t.trim().toLowerCase()).filter(Boolean) : []`
      with `tagsRaw = (first(tags) ?? "").trim()`: the non-empty, trimmed,
      lowercased comma-separated entries, in order; a missing or blank value
      gives none. */
  function ParseTags(v: Option<string>): (r: seq<string>)
    ensures forall k :: 0 <= k < |r| ==> r[k] != ""
    ensures forall k :: 0 <= k < |r| ==>
              (exists j :: 0 <= j < |TagPieces(v)| && r[k] == CleanTag(TagPieces(v)[j]))
    ensures forall j :: (0 <= j < |TagPieces(v)| && CleanTag(TagPieces(v)[j]) != "") ==>
              CleanTag(TagPieces(v)[j]) in r
    ensures Trim(v.GetOr("")) == "" ==> r == []
  {
    var raw := Trim(v.GetOr(""));
    if raw == "" then
      assert TagPieces(v) == [""];
      assert CleanTag("") == "";
      []
    else CleanTags(TagPieces(v))
  }
}
