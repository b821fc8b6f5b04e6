/** The cursor of the live recursive media listing (api/drive/media.ts,
    lines 32-56): base64url of the JSON of the traversal state. Unlike the
    crawler's, this decoder checks the shape: `queue` must be an array, and
    a `current` or `pageToken` that is not a string reads as null. The queue's
    elements are not checked, so they are kept as arbitrary JSON values. */
module MediaCursor {
  import opened Wrappers
  import Text
  import Json
  import Base64Url

  /** The folders still to visit, the folder being listed, and the page
      token within it. */
  datatype MediaState = MediaState(queue: seq<Json.Value>, current: Json.Value, pageToken: Option<string>)

  /** `{ queue: [folderId], current: null, pageToken: null }`. */
  function Start(folderId: string): MediaState {
    MediaState([Json.Str(folderId)], Json.Null, None)
  }

  /** `!!state.current || state.queue.length > 0 || !!state.pageToken`. */
  predicate HasMore(st: MediaState) {
    Json.Truthy(st.current) || |st.queue| > 0 || Text.Truthy(st.pageToken)
  }

  function OptStr(o: Option<string>): Json.Value {
    match o
    case None => Json.Null
    case Some(s) => Json.Str(s)
  }

  function ToJson(st: MediaState): Json.Value {
    Json.Obj([
      ("queue", Json.Arr(st.queue)),
      ("current", st.current),
      ("pageToken", OptStr(st.pageToken))])
  }

  /** `obj.key` on a parsed value: only objects have members. */
  function Member(v: Json.Value, key: string): Option<Json.Value> {
    if v.Obj? then Json.Get(v.fields, key) else None
  }

  /** `typeof x === 'string' ? x : null`. */
  function StringOrNull(v: Option<Json.Value>): (r: Json.Value)
    ensures r.Str? || r.Null?
    ensures v.Some? && v.value.Str? ==> r == v.value
    ensures (v.None? || !v.value.Str?) ==> r.Null?
  {
    match v
    case Some(Str(s)) => Json.Str(s)
    case _ => Json.Null
  }

  function EncodeCursor(c: Json.Codec, st: MediaState): string {
    Base64Url.Encode(c.stringify(ToJson(st)))
  }

  /** `decodeCursor`: nothing for an absent or empty cursor, for text that
      does not parse, for a falsy parsed value, or when `queue` is not an
      array; otherwise the queue as it is, and `current` and `pageToken`
      kept only when they are strings. */
  function DecodeCursor(c: Json.Codec, cursor: Option<string>): (r: Option<MediaState>)
    ensures !Text.Truthy(cursor) ==> r.None?
    ensures Text.Truthy(cursor) && c.parse(Base64Url.Decode(cursor.value)).None? ==> r.None?
    ensures r.Some? ==> r.value.current.Str? || r.value.current.Null?
    ensures r.Some? <==>
              && Text.Truthy(cursor)
              && var v := c.parse(Base64Url.Decode(cursor.value));
                 v.Some? && Json.Truthy(v.value)
                 && Member(v.value, "queue").Some? && Member(v.value, "queue").value.Arr?
    ensures r.Some? ==>
              var v := c.parse(Base64Url.Decode(cursor.value)).value;
              && r.value.queue == Member(v, "queue").value.elems
              && r.value.current == StringOrNull(Member(v, "current"))
              && r.value.pageToken == (if StringOrNull(Member(v, "pageToken")).Str?
                                       then Some(StringOrNull(Member(v, "pageToken")).s) else None)
  {
    if !Text.Truthy(cursor) then None
    else match c.parse(Base64Url.Decode(cursor.value))
      case None => None
      case Some(v) =>
        if !Json.Truthy(v) then None
        else match Member(v, "queue")
          case Some(Arr(q)) =>
            var tok := StringOrNull(Member(v, "pageToken"));
            Some(MediaState(q, StringOrNull(Member(v, "current")), if tok.Str? then Some(tok.s) else None))
          case _ => None
  }

  /** What a state reads back as: a `current` that is not a string is
      written out as it is and read back as null. */
  function Normalized(st: MediaState): (r: MediaState)
    ensures r.queue == st.queue && r.pageToken == st.pageToken
    ensures st.current.Str? || st.current.Null? ==> r == st
    ensures !st.current.Str? ==> r.current.Null?
  {
    st.(current := StringOrNull(Some(st.current)))
  }

  /** When JSON text parses back to what was stringified, every state whose
      JSON is plain survives the cursor round trip up to `Normalized`; in
      particular a state whose `current` is a string or null comes back
      exactly. */
  lemma CursorRoundTrip(c: Json.Codec, st: MediaState)
    requires Json.Faithful(c) && Json.Plain(ToJson(st))
    ensures DecodeCursor(c, Some(EncodeCursor(c, st))) == Some(Normalized(st))
  {
    var v := ToJson(st);
    var bytes := c.stringify(v);
    assert |bytes| > 0 && c.parse(bytes) == Some(v);
    Base64Url.DecodeEncode(bytes);
    Json.GetLast(v.fields, 0, "queue");
    Json.GetLast(v.fields, 1, "current");
    Json.GetLast(v.fields, 2, "pageToken");
  }
}
