/** The entities of the editor: a committed panel, an image staged for the
    next commit, and the screen being shown. */
module MangaTypes {

  /** Identifiers and image handles are opaque strings. */
  type Id = string
  type Url = string

  /** A committed panel: image reference plus caption (possibly empty). */
  datatype Panel = Panel(id: Id, imageUrl: Url, text: string)

  /** An image that has been selected but not yet committed. The browser
      `File` object it was created from is not part of the model; only the
      object URL derived from it is. */
  datatype Staged = Staged(id: Id, previewUrl: Url)

  /** The two screens of the application. */
  datatype View = Upload | Preview

  /** A value that may be missing (the file input's `files` may be null). */
  datatype Option<T> = None | Some(value: T)

  function PanelId(p: Panel): Id { p.id }

  function StagedId(s: Staged): Id { s.id }

  /** None of `ids` is already the id of a panel in `ps`. Unlike
      `OrderedList.DisjointKeys`, which compares two lists of entries of one
      type, this compares bare ids that have not yet been given to any panel
      with the ids of existing panels. */
  predicate FreshIds(ids: seq<Id>, ps: seq<Panel>)
  {
    forall k, j :: 0 <= k < |ids| && 0 <= j < |ps| ==> ids[k] != ps[j].id
  }
}
