/** The pure transformations behind the upload screen: building the staged
    list from a file selection, turning staged images into panels, and the
    commit transition. The gate on the "go to preview" button is part of
    `Editor.GoToPreviewScreen`. */
module Upload {
  import opened MangaTypes
  import OrderedList

  /** One staged entry per selected file, in file order; `urls` are the object
      URLs created for the files and `ids` the identifiers given to them. */
  function StageFiles(ids: seq<Id>, urls: seq<Url>): (r: seq<Staged>)
    requires |ids| == |urls|
    ensures |r| == |urls|
    ensures forall k :: 0 <= k < |r| ==> r[k] == Staged(ids[k], urls[k])
  {
    if urls == [] then [] else [Staged(ids[0], urls[0])] + StageFiles(ids[1..], urls[1..])
  }

  /** The staged list after a file selection: a missing or empty selection
      keeps the current staged list, any other selection replaces it whole. */
  function SelectFiles(staged: seq<Staged>, selection: Option<seq<Url>>, ids: seq<Id>): (r: seq<Staged>)
    requires selection.Some? ==> |ids| == |selection.value|
    ensures selection.None? || selection.value == [] ==> r == staged
    ensures selection.Some? && selection.value != [] ==>
              |r| == |selection.value| &&
              forall k :: 0 <= k < |r| ==> r[k] == Staged(ids[k], selection.value[k])
  {
    match selection
    case None => staged
    case Some(urls) => if urls == [] then staged else StageFiles(ids, urls)
  }

  /** The panels a commit creates: one per staged image, in staged order, with
      the image's preview URL; the first carries `caption` and the others an
      empty caption. */
  function NewPanels(staged: seq<Staged>, ids: seq<Id>, caption: string): (r: seq<Panel>)
    requires |ids| == |staged|
    ensures |r| == |staged|
    ensures forall k :: 0 <= k < |r| ==> r[k].id == ids[k] && r[k].imageUrl == staged[k].previewUrl
    ensures forall k :: 0 < k < |r| ==> r[k].text == ""
    ensures |r| > 0 ==> r[0].text == caption
  {
    if staged == [] then []
    else [Panel(ids[0], staged[0].previewUrl, caption)] + NewPanels(staged[1..], ids[1..], "")
  }

  /** What a commit leaves behind: the panel list, the staged list and the
      pending caption. */
  datatype Committed = Committed(panels: seq<Panel>, staged: seq<Staged>, currentText: string)

  /** The commit transition. With nothing staged everything stays as it was;
      otherwise the new panels are appended after the existing ones, and the
      staged list and the pending caption are cleared. */
  function Commit(panels: seq<Panel>, staged: seq<Staged>, currentText: string, ids: seq<Id>): (r: Committed)
    requires |ids| == |staged|
    ensures staged == [] ==> r == Committed(panels, staged, currentText)
    ensures staged != [] ==> r.staged == [] && r.currentText == ""
    ensures staged != [] ==>
              |r.panels| == |panels| + |staged| && r.panels[..|panels|] == panels &&
              r.panels[|panels|..] == NewPanels(staged, ids, currentText)
  {
    if |staged| == 0 then Committed(panels, staged, currentText)
    else
      var added := NewPanels(staged, ids, currentText);
      assert (panels + added)[|panels|..] == added;
      Committed(panels + added, [], "")
  }

  /** A selection made with distinct ids yields a staged list with distinct ids. */
  lemma StageFilesDistinct(ids: seq<Id>, urls: seq<Url>)
    requires |ids| == |urls| && OrderedList.DistinctIds(ids)
    ensures OrderedList.DistinctKeys(StageFiles(ids, urls), StagedId)
  {
  }

  /** Committed panels made with distinct ids that no existing panel carries
      keep the panel ids of the whole list distinct. */
  lemma CommitKeepsDistinct(panels: seq<Panel>, staged: seq<Staged>, currentText: string, ids: seq<Id>)
    requires |ids| == |staged| && OrderedList.DistinctIds(ids) && FreshIds(ids, panels)
    requires OrderedList.DistinctKeys(panels, PanelId)
    ensures OrderedList.DistinctKeys(Commit(panels, staged, currentText, ids).panels, PanelId)
  {
  }

  /** The worked example of a commit: staged images A, B, C with pending
      caption "Hi" become three panels captioned "Hi", "" and "" after the
      existing ones. */
  lemma CommitExample(existing: seq<Panel>, a: Staged, b: Staged, c: Staged, ids: seq<Id>)
    requires |ids| == 3
    ensures Commit(existing, [a, b, c], "Hi", ids) ==
            Committed(existing + [Panel(ids[0], a.previewUrl, "Hi"),
                                    Panel(ids[1], b.previewUrl, ""),
                                    Panel(ids[2], c.previewUrl, "")],
                      [], "")
  {
  }
}
