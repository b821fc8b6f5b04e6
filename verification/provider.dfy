/** The remote file-tree provider, reduced to the listing call the handlers
    make (`drive.files.list`). The provider itself is a function value passed
    in by the caller; nothing here constrains its answers. */
module Provider {
  import opened Wrappers
  import opened Text
  import DriveQuery

  /** One listed file or folder, with the fields the handlers request; every
      field may be absent. */
  datatype Entry = Entry(
    id: Option<string>,
    name: Option<string>,
    mimeType: Option<string>,
    parents: seq<string>,
    createdTime: Option<string>,
    modifiedTime: Option<string>,
    webViewLink: Option<string>)
  {
    /** `f.mimeType ?? ""`. */
    function Mime(): string { mimeType.GetOr("") }

    /** `f.name ?? "(untitled)"`. */
    function Title(): string { name.GetOr("(untitled)") }

    /** `f.parents?.[0] ?? null`. */
    function ParentId(): Option<string> {
      if |parents| > 0 then Some(parents[0]) else None
    }

    /** The handlers skip entries whose id is falsy (`if (!f?.id) continue`). */
    predicate HasId() { Truthy(id) }

    predicate IsFolder() { Mime() == DriveQuery.FolderMime }
  }

  /** One page of a listing; a missing `files` array is the empty sequence. */
  datatype Page = Page(files: seq<Entry>, nextPageToken: Option<string>)

  /** The arguments of one listing call that vary between calls. */
  datatype ListRequest = ListRequest(
    q: string,
    pageToken: Option<string>,
    pageSize: nat,
    orderBy: Option<string>)

  type Lister = ListRequest -> Page

  /** The application's own thumbnail route for a file id. */
  function ThumbUrl(id: string): string {
    "/api/drive/thumb?id=" + EncodeUriComponent(id)
  }
}
