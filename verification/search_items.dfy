/** The items of the indexed search (api/drive/search.ts, lines 104-119):
    each stored file document becomes a response item, with `??` defaults
    for absent or null fields. Two of those defaults call string methods, so
    a stored `name` that is not a string, or a missing `type` beside a
    `mimeType` that is not a string, makes the whole request fail. */
module SearchItems {
  import opened Wrappers
  import Seqs
  import opened Store
  import opened MediaKind
  import Text
  import Provider
  import CrawlLoop

  /** One response item. Fields passed through from the document keep their
      stored value; `title`, `tags` and `timestamp` are what the filter and
      the sort read. */
  datatype Item = Item(
    id: Field,
    title: string,
    mimeType: Field,
    kind: Field,
    fileExtension: Field,
    tags: seq<string>,
    thumbUrl: Field,
    viewUrl: Option<Field>,
    createdAt: Option<Field>,
    timestamp: int)

  /** What the runtime supplies: `String(v)` of a stored value that is not a
      string, and `new Date(v).getTime()`. */
  datatype Render = Render(show: Field -> string, time: Field -> int)

  /** `d.k ?? …`: absent and null both fall through to the default. */
  function Coalesce(d: Doc, k: string): (r: Option<Field>)
    ensures r.Some? <==> k in d && d[k] != FNull
    ensures r.Some? ==> r.value == d[k]
  {
    if k in d && d[k] != FNull then Some(d[k]) else None
  }

  /** `d.name ?? ""` can be lowercased: the name is a string or missing. */
  predicate NameReadable(d: Doc) {
    Coalesce(d, "name").None? || Coalesce(d, "name").value.FStr?
  }

  /** The type is stored, or the MIME type it is derived from is a string or
      missing. */
  predicate KindReadable(d: Doc) {
    Coalesce(d, "type").Some? || Coalesce(d, "mimeType").None? || Coalesce(d, "mimeType").value.FStr?
  }

  /** The text of `d.id` inside the fallback thumbnail route. */
  function IdText(d: Doc, rd: Render): string {
    if "id" !in d then "undefined"
    else match d["id"]
      case FStr(s) => s
      case v => rd.show(v)
  }

  /** The mapping of one document. It fails exactly when a name or a MIME
      type that must be read as a string is some other value; otherwise the
      title and tags come from the name, a stored type wins over the one the
      MIME type gives, and a falsy creation time sorts as 0. */
  function ToItem(docId: string, d: Doc, rd: Render): (r: Option<Item>)
    ensures r.Some? <==> NameReadable(d) && KindReadable(d)
    ensures r.Some? ==>
              var name := if Coalesce(d, "name").Some? then Coalesce(d, "name").value.s else "";
              && r.value.title == (if Coalesce(d, "name").Some? then name else "(untitled)")
              && r.value.tags == ExtractTags(name)
    ensures r.Some? && Coalesce(d, "type").Some? ==> r.value.kind == d["type"]
    ensures r.Some? && Coalesce(d, "type").None? ==>
              r.value.kind == FStr(MediaTypeFromMime(if Coalesce(d, "mimeType").Some? then d["mimeType"].s else "").Name())
    ensures r.Some? ==> r.value.id == (if Coalesce(d, "id").Some? then d["id"] else FStr(docId))
    ensures r.Some? ==>
              r.value.timestamp == (if "createdTime" in d && FieldTruthy(d["createdTime"]) then rd.time(d["createdTime"]) else 0)
  {
    var name := Coalesce(d, "name");
    var mime := Coalesce(d, "mimeType");
    if !NameReadable(d) || !KindReadable(d) then None
    else
      var nameText := if name.Some? then name.value.s else "";
      var kind := match Coalesce(d, "type")
        case Some(t) => t
        case None => FStr(MediaTypeFromMime(if mime.Some? then mime.value.s else "").Name());
      Some(Item(
        Coalesce(d, "id").GetOr(FStr(docId)),
        if name.Some? then nameText else "(untitled)",
        mime.GetOr(FStr("")),
        kind,
        Coalesce(d, "fileExtension").GetOr(FNull),
        ExtractTags(nameText),
        Coalesce(d, "thumbUrl").GetOr(FStr(Provider.ThumbUrl(IdText(d, rd)))),
        Coalesce(d, "webViewLink"),
        Coalesce(d, "createdTime"),
        if "createdTime" in d && FieldTruthy(d["createdTime"]) then rd.time(d["createdTime"]) else 0))
  }

  /** `snapshot.docs.map(…)`: every document mapped, in order, or a failure
      if any one of them fails. */
  function ToItems(snap: seq<(string, Doc)>, rd: Render): (r: Option<seq<Item>>)
    ensures r.Some? <==> forall k :: 0 <= k < |snap| ==> ToItem(snap[k].0, snap[k].1, rd).Some?
    ensures r.Some? ==> |r.value| == |snap|
    ensures r.Some? ==> forall k :: 0 <= k < |snap| ==> ToItem(snap[k].0, snap[k].1, rd) == Some(r.value[k])
    decreases |snap|
  {
    if snap == [] then Some([])
    else match ToItem(snap[0].0, snap[0].1, rd)
      case None => None
      case Some(it) =>
        match ToItems(snap[1..], rd)
        case None => None
        case Some(rest) =>
          Seqs.TailIndex(snap);
          Some([it] + rest)
  }

  /** The document the crawler writes for a listed file always maps, and the
      item shows the file as listed: its id, its title, the tags of that
      title, the classification of its MIME type and the crawler's
      thumbnail route. */
  lemma CrawledFileReadsBack(f: Provider.Entry, env: CrawlLoop.Env, syncId: int, docId: string, rd: Render)
    requires f.HasId()
    ensures var r := ToItem(docId, CrawlLoop.FileDoc(f, env, syncId), rd);
            && r.Some?
            && r.value.id == FStr(f.id.value)
            && r.value.title == f.Title()
            && r.value.tags == ExtractTags(f.Title())
            && r.value.kind == FStr(MediaTypeFromMime(f.Mime()).Name())
            && r.value.thumbUrl == FStr(Provider.ThumbUrl(f.id.value))
            && r.value.timestamp == (if Text.Truthy(f.createdTime) then rd.time(FStr(f.createdTime.value)) else 0)
  {
    FileDocFields(f, env, syncId);
  }

  lemma FileDocFields(f: Provider.Entry, env: CrawlLoop.Env, syncId: int)
    requires f.HasId()
    ensures var d := CrawlLoop.FileDoc(f, env, syncId);
            && Coalesce(d, "name") == Some(FStr(f.Title()))
            && Coalesce(d, "type") == Some(FStr(MediaTypeFromMime(f.Mime()).Name()))
            && Coalesce(d, "id") == Some(FStr(f.id.value))
            && Coalesce(d, "thumbUrl") == Some(FStr(Provider.ThumbUrl(f.id.value)))
            && "createdTime" in d && d["createdTime"] == CrawlLoop.Nullable(f.createdTime)
  {
  }
}
