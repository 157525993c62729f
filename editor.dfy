/** The editor's state as the application keeps it: the committed panels and
    the current view (owned by the root component), and the staged images and
    pending caption (owned by the upload screen). Each method is one handler,
    applied as one atomic state update. */
module Editor {
  import opened MangaTypes
  import OrderedList
  import Panels
  import Upload

  class Editor {
    var panels: seq<Panel>
    var view: View
    var staged: seq<Staged>
    var currentText: string

    /** Ids are unique within each list. The upload screen, which holds the
        staged list and the pending caption, exists only while the view is
        the upload screen, so in the preview both are at their initial empty
        values; and the preview can only be reached with at least one panel. */
    ghost predicate Valid()
      reads this
    {
      OrderedList.DistinctKeys(panels, PanelId) &&
      OrderedList.DistinctKeys(staged, StagedId) &&
      (view == Preview ==> panels != [] && staged == [] && currentText == "")
    }

    /** The initial state: upload screen, no panels, nothing staged. */
    constructor ()
      ensures Valid()
      ensures panels == [] && view == Upload && staged == [] && currentText == ""
    {
      panels := [];
      view := Upload;
      staged := [];
      currentText := "";
    }

    /** Caption edit of the panel with the given id. */
    method UpdatePanelText(id: Id, text: string)
      requires Valid() && view == Upload
      modifies this
      ensures Valid()
      ensures panels == Panels.UpdateText(old(panels), id, text)
      ensures view == old(view) && staged == old(staged) && currentText == old(currentText)
    {
      Panels.UpdateKeepsDistinct(panels, id, text);
      panels := Panels.UpdateText(panels, id, text);
    }

    /** Removal of every panel with the given id. */
    method RemovePanel(id: Id)
      requires Valid() && view == Upload
      modifies this
      ensures Valid()
      ensures panels == OrderedList.RemoveById(old(panels), PanelId, id)
      ensures view == old(view) && staged == old(staged) && currentText == old(currentText)
    {
      OrderedList.RemoveKeepsDistinct(panels, PanelId, id);
      panels := OrderedList.RemoveById(panels, PanelId, id);
    }

    /** Moves the panel at `index` one place up: a copy of the list with two
        entries exchanged, or nothing at the front. */
    method MovePanelUp(index: nat)
      requires Valid() && view == Upload && index < |panels|
      modifies this
      ensures Valid()
      ensures panels == OrderedList.MoveUp(old(panels), index)
      ensures view == old(view) && staged == old(staged) && currentText == old(currentText)
    {
      if index != 0 {
        OrderedList.MoveUpIsSwap(panels, PanelId, index);
        var moved := OrderedList.SwapCopy(panels, index, index - 1);
        panels := moved;
      }
    }

    /** Moves the panel at `index` one place down: a copy of the list with two
        entries exchanged, or nothing at the last position. */
    method MovePanelDown(index: nat)
      requires Valid() && view == Upload && index < |panels|
      modifies this
      ensures Valid()
      ensures panels == OrderedList.MoveDown(old(panels), index)
      ensures view == old(view) && staged == old(staged) && currentText == old(currentText)
    {
      if index != |panels| - 1 {
        OrderedList.MoveDownIsSwap(panels, PanelId, index);
        var moved := OrderedList.SwapCopy(panels, index, index + 1);
        panels := moved;
      }
    }

    /** Appends a batch of panels whose ids are distinct and new. */
    method AddPanels(added: seq<Panel>)
      requires Valid() && view == Upload
      requires OrderedList.DistinctKeys(added, PanelId) && OrderedList.DisjointKeys(panels, added, PanelId)
      modifies this
      ensures Valid()
      ensures panels == old(panels) + added
      ensures panels[..|old(panels)|] == old(panels) && |panels| == |old(panels)| + |added|
      ensures view == old(view) && staged == old(staged) && currentText == old(currentText)
    {
      OrderedList.AppendKeepsDistinct(panels, added, PanelId);
      panels := panels + added;
    }

    /** The "go to preview" button. It is disabled while there is no panel,
        and a click on a disabled button does nothing. Leaving the upload
        screen discards its staged images and pending caption. */
    method GoToPreviewScreen()
      requires Valid()
      modifies this
      ensures Valid()
      ensures panels == old(panels)
      ensures old(panels) == [] ==> view == old(view) && staged == old(staged) && currentText == old(currentText)
      ensures old(panels) != [] ==> view == Preview && staged == [] && currentText == ""
    {
      if panels != [] {
        view := Preview;
        staged := [];
        currentText := "";
      }
    }

    /** The "return to editing" button of the preview screen. */
    method GoToUploadScreen()
      requires Valid()
      modifies this
      ensures Valid()
      ensures view == Upload
      ensures panels == old(panels) && staged == old(staged) && currentText == old(currentText)
    {
      view := Upload;
    }

    /** Typing into the pending-caption field. */
    method SetCurrentText(text: string)
      requires Valid() && view == Upload
      modifies this
      ensures Valid()
      ensures currentText == text
      ensures panels == old(panels) && view == old(view) && staged == old(staged)
    {
      currentText := text;
    }

    /** A file selection; `ids` are the distinct ids given to the selected
        files and the selection holds the object URL of each file. */
    method HandleFileSelect(selection: Option<seq<Url>>, ids: seq<Id>)
      requires Valid() && view == Upload
      requires selection.Some? ==> |ids| == |selection.value|
      requires OrderedList.DistinctIds(ids)
      modifies this
      ensures Valid()
      ensures staged == Upload.SelectFiles(old(staged), selection, ids)
      ensures panels == old(panels) && view == old(view) && currentText == old(currentText)
    {
      if selection.None? || |selection.value| == 0 { return; }
      Upload.StageFilesDistinct(ids, selection.value);
      staged := Upload.StageFiles(ids, selection.value);
    }

    /** Discards every staged image with the given id. */
    method RemovePreviewImage(id: Id)
      requires Valid() && view == Upload
      modifies this
      ensures Valid()
      ensures staged == OrderedList.RemoveById(old(staged), StagedId, id)
      ensures panels == old(panels) && view == old(view) && currentText == old(currentText)
    {
      OrderedList.RemoveKeepsDistinct(staged, StagedId, id);
      staged := OrderedList.RemoveById(staged, StagedId, id);
    }

    /** Moves the staged image at `index` one place up. */
    method MovePreviewImageUp(index: nat)
      requires Valid() && view == Upload && index < |staged|
      modifies this
      ensures Valid()
      ensures staged == OrderedList.MoveUp(old(staged), index)
      ensures panels == old(panels) && view == old(view) && currentText == old(currentText)
    {
      if index != 0 {
        OrderedList.MoveUpIsSwap(staged, StagedId, index);
        var moved := OrderedList.SwapCopy(staged, index, index - 1);
        staged := moved;
      }
    }

    /** Moves the staged image at `index` one place down. */
    method MovePreviewImageDown(index: nat)
      requires Valid() && view == Upload && index < |staged|
      modifies this
      ensures Valid()
      ensures staged == OrderedList.MoveDown(old(staged), index)
      ensures panels == old(panels) && view == old(view) && currentText == old(currentText)
    {
      if index != |staged| - 1 {
        OrderedList.MoveDownIsSwap(staged, StagedId, index);
        var moved := OrderedList.SwapCopy(staged, index, index + 1);
        staged := moved;
      }
    }

    /** The commit: the staged images become panels appended to the panel
        list, then the staged list and the pending caption are cleared.
        `ids` are the distinct, new ids given to the created panels. */
    method HandleAddSelectedImages(ids: seq<Id>)
      requires Valid() && view == Upload
      requires |ids| == |staged| && OrderedList.DistinctIds(ids) && FreshIds(ids, panels)
      modifies this
      ensures Valid()
      ensures var c := Upload.Commit(old(panels), old(staged), old(currentText), ids);
              panels == c.panels && staged == c.staged && currentText == c.currentText
      ensures view == old(view)
    {
      if |staged| == 0 { return; }
      var added := Upload.NewPanels(staged, ids, currentText);
      Upload.CommitKeepsDistinct(panels, staged, currentText, ids);
      AddPanels(added);
      staged := [];
      currentText := "";
    }
  }

  /** The first step of the session below: two files are selected and a
      caption is typed on a fresh editor. */
  method SelectTwo(e: Editor, urlA: Url, urlB: Url, caption: string, stageIds: seq<Id>)
    requires e.Valid() && e.view == Upload && e.panels == []
    requires |stageIds| == 2 && stageIds[0] != stageIds[1]
    modifies e
    ensures e.Valid() && e.view == Upload && e.panels == [] && e.currentText == caption
    ensures e.staged == [Staged(stageIds[0], urlA), Staged(stageIds[1], urlB)]
  {
    assert Upload.SelectFiles(e.staged, Some([urlA, urlB]), stageIds) ==
           [Staged(stageIds[0], urlA), Staged(stageIds[1], urlB)];
    e.HandleFileSelect(Some([urlA, urlB]), stageIds);
    e.SetCurrentText(caption);
  }

  /** The second step of the session below: the two staged images are
      committed. */
  method CommitTwo(e: Editor, urlA: Url, urlB: Url, caption: string, stageIds: seq<Id>, panelIds: seq<Id>)
    requires e.Valid() && e.view == Upload && e.panels == [] && e.currentText == caption
    requires |stageIds| == 2 && e.staged == [Staged(stageIds[0], urlA), Staged(stageIds[1], urlB)]
    requires |panelIds| == 2 && panelIds[0] != panelIds[1]
    modifies e
    ensures e.Valid() && e.view == Upload && e.staged == [] && e.currentText == ""
    ensures e.panels == [Panel(panelIds[0], urlA, caption), Panel(panelIds[1], urlB, "")]
  {
    var p1, p2 := Panel(panelIds[0], urlA, caption), Panel(panelIds[1], urlB, "");
    assert Upload.NewPanels(e.staged, panelIds, caption) == [p1, p2];
    assert OrderedList.DistinctIds(panelIds);
    e.HandleAddSelectedImages(panelIds);
  }

  /** A whole session: select two files, type a caption, commit, move the
      second panel up and go to the preview. The preview then shows the two
      images in swapped order, with the caption on the one committed first. */
  method Session(urlA: Url, urlB: Url, caption: string, stageIds: seq<Id>, panelIds: seq<Id>)
    returns (shown: seq<Panel>, view: View)
    requires |stageIds| == 2 && stageIds[0] != stageIds[1]
    requires |panelIds| == 2 && panelIds[0] != panelIds[1]
    ensures view == Preview
    ensures shown == [Panel(panelIds[1], urlB, ""), Panel(panelIds[0], urlA, caption)]
  {
    var e := new Editor();
    SelectTwo(e, urlA, urlB, caption, stageIds);
    CommitTwo(e, urlA, urlB, caption, stageIds, panelIds);
    var p1, p2 := Panel(panelIds[0], urlA, caption), Panel(panelIds[1], urlB, "");
    assert OrderedList.MoveUp([p1, p2], 1) == [p2, p1];
    e.MovePanelUp(1);
    e.GoToPreviewScreen();
    shown, view := e.panels, e.view;
  }
}
