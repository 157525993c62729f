/** The pure list transformations behind the panel handlers of the
    application root: caption edit by id (moves, removal and append are the
    shared ones in OrderedList). */
module Panels {
  import opened MangaTypes
  import OrderedList

  /** Every panel whose id is `id` gets caption `text`; every other panel,
      and the order and length of the list, stay as they were. */
  function UpdateText(ps: seq<Panel>, id: Id, text: string): (r: seq<Panel>)
    ensures |r| == |ps|
    ensures forall k :: 0 <= k < |ps| ==> r[k].id == ps[k].id && r[k].imageUrl == ps[k].imageUrl
    ensures forall k :: 0 <= k < |ps| && ps[k].id == id ==> r[k].text == text
    ensures forall k :: 0 <= k < |ps| && ps[k].id != id ==> r[k] == ps[k]
  {
    if ps == [] then []
    else [if ps[0].id == id then ps[0].(text := text) else ps[0]] + UpdateText(ps[1..], id, text)
  }

  /** A caption edit for an id no panel carries leaves the list equal to the
      original. */
  lemma UpdateUnknownId(ps: seq<Panel>, id: Id, text: string)
    requires forall k :: 0 <= k < |ps| ==> ps[k].id != id
    ensures UpdateText(ps, id, text) == ps
  {
  }

  /** Only the last of two edits of the same caption is visible. */
  lemma UpdateTwice(ps: seq<Panel>, id: Id, first: string, second: string)
    ensures UpdateText(UpdateText(ps, id, first), id, second) == UpdateText(ps, id, second)
  {
  }

  /** A caption edit keeps the panel ids distinct. */
  lemma UpdateKeepsDistinct(ps: seq<Panel>, id: Id, text: string)
    requires OrderedList.DistinctKeys(ps, PanelId)
    ensures OrderedList.DistinctKeys(UpdateText(ps, id, text), PanelId)
  {
  }
}
