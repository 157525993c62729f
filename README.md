# Manga creator: the ordered-list editing model

The manga creator is a browser tool that assembles images into a strip of
comic panels. Two ordered lists make up its state:

- the committed **panel list**, held by the application root
  (`manga-creator/src/App.tsx`), with caption edit, removal, moving up and
  down, and batch append;
- the **staged list** of selected images and the pending caption, held by the
  upload screen (`manga-creator/src/components/UploadScreen/index.tsx`), with
  replace-all on a file selection, removal, moving up and down, and the single
  commit that turns staged images into panels.

A two-state view (`upload` / `preview`) chooses the screen; the "go to
preview" button is disabled while there is no panel.

The model is laid out as follows.

- `MangaTypes` (`types.dfy`) holds the entities `Panel`, `Staged` and `View`.
- `OrderedList` (`ordered_list.dfy`) holds the operations both lists share:
  swap, move up, move down and removal by id, with the lemmas about them.
  Each function is generic in the entry type, and a `key` function reads the id.
  It also holds the uniqueness predicates on ids, and the lemma that appending
  a batch of new, distinct ids keeps ids unique. Appending itself is sequence
  concatenation in `Editor.AddPanels`, and only the panel list is appended to.
  The staged list is instead replaced whole on each file selection.
- `Panels` (`panels.dfy`) holds the caption edit.
- `Upload` (`upload.dfy`) holds file selection, panel creation and the commit
  transition.
- `Editor` (`editor.dfy`) holds a class with the fields `panels`, `view`,
  `staged` and `currentText`. Each handler is a method, and each method states
  its new state as one of the pure functions applied to the old state.
  The gate on the "go to preview" button is part of `GoToPreviewScreen`.

The class invariant `Valid()` says three things:

- ids are unique in each list;
- the preview view is only ever shown with a non-empty panel list;
- while the preview is shown, the staged list and the pending caption are
  empty.

The last point holds because the root renders the upload screen only in the
upload view (App.tsx:44-59), so leaving that view unmounts the screen and its
local state. On return, the state starts again from its initial empty values.
`GoToPreviewScreen` models that discard.

Moving an entry copies the list into a fresh array and exchanges two cells in
place, as the source does with `[...panels]` and a destructuring swap
(`OrderedList.SwapCopy`).

The model keeps three behaviours of the code that a reader might not expect:

- removal by id drops every entry with that id (a `filter`), not only the first;
- a missing or empty file selection leaves the staged list as it was, rather
  than clearing it;
- the move handlers do not guard out-of-range indices (see "Left out").

## Model

| member | source | states |
|---|---|---|
| `OrderedList.Swap` | manga-creator/src/App.tsx:24 | the two positions exchange their entries, every other position and the length are unchanged, and the result is a permutation (same multiset) |
| `OrderedList.SwapCopy` | manga-creator/src/App.tsx:23-25 | copying into a fresh array and swapping there in place yields exactly `Swap` of the input |
| `OrderedList.MoveUp` | manga-creator/src/App.tsx:21-26 | at index 0 the list is unchanged; otherwise positions i and i-1 are exchanged and nothing else changes; length and multiset are kept |
| `OrderedList.MoveDown` | manga-creator/src/App.tsx:28-33 | at the last index the list is unchanged; otherwise positions i and i+1 are exchanged and nothing else changes; length and multiset are kept |
| `OrderedList.MoveUpIsSwap` | manga-creator/src/App.tsx:21-26 | for 0 < i, moving up is the exchange of i and i-1, and it keeps distinct ids distinct |
| `OrderedList.MoveDownIsSwap` | manga-creator/src/App.tsx:28-33 | for i below the last index, moving down is the exchange of i and i+1, and it keeps distinct ids distinct |
| `OrderedList.MoveUpThenDown` | manga-creator/src/App.tsx:21-33 | for 0 < i < length, moving i up and then i-1 down restores the original list |
| `OrderedList.MoveDownThenUp` | manga-creator/src/App.tsx:21-33 | for i < length-1, moving i down and then i+1 up restores the original list |
| `OrderedList.SwapKeepsDistinct` | manga-creator/src/App.tsx:24 | exchanging two entries of a list with distinct ids keeps the ids distinct |
| `OrderedList.MovesKeepDistinct` | manga-creator/src/App.tsx:21-33 | both moves keep distinct ids distinct |
| `OrderedList.RemoveById` | manga-creator/src/App.tsx:17-19 | no remaining entry has the removed id; every remaining entry came from the input; every input entry with another id remains; the list does not grow |
| `OrderedList.RemoveConcat` | manga-creator/src/App.tsx:18 | removal distributes over concatenation |
| `OrderedList.RemoveMissing` | manga-creator/src/App.tsx:17-19 | removing an id no entry carries leaves the list equal to the original |
| `OrderedList.RemoveIdempotent` | manga-creator/src/App.tsx:17-19 | removing twice equals removing once |
| `OrderedList.RemoveIsSubsequence` | manga-creator/src/App.tsx:17-19 | the remaining entries keep their original relative order (the result is a subsequence of the input) |
| `OrderedList.RemoveKeepsDistinct` | manga-creator/src/App.tsx:17-19 | removal keeps distinct ids distinct |
| `OrderedList.RemoveOnly` | manga-creator/src/App.tsx:17-19 | removing the id of one entry that no other entry carries yields the list without that entry |
| `OrderedList.RemoveTheOne` | manga-creator/src/App.tsx:17-19 | with distinct ids, removing the id of the entry at k yields the list without position k |
| `OrderedList.AppendKeepsDistinct` | manga-creator/src/App.tsx:35-37 | appending a batch with distinct ids that are new to the list keeps all ids distinct |
| `Panels.UpdateText` | manga-creator/src/App.tsx:11-15 | length, every id and every imageUrl are kept; entries with the edited id get the new text; every other entry is unchanged |
| `Panels.UpdateUnknownId` | manga-creator/src/App.tsx:11-15 | a caption edit for an unknown id leaves the list equal to the original |
| `Panels.UpdateTwice` | manga-creator/src/App.tsx:11-15 | two edits of the same id equal the last edit alone |
| `Panels.UpdateKeepsDistinct` | manga-creator/src/App.tsx:11-15 | a caption edit keeps distinct panel ids distinct |
| `Upload.StageFiles` | manga-creator/src/components/UploadScreen/index.tsx:39-43 | one staged entry per selected file, in file order, carrying that file's id and preview URL |
| `Upload.SelectFiles` | manga-creator/src/components/UploadScreen/index.tsx:35-46 | a missing or empty selection leaves the staged list unchanged; otherwise the new list has exactly one entry per file in file order, whatever was staged before |
| `Upload.StageFilesDistinct` | manga-creator/src/components/UploadScreen/index.tsx:39-43 | distinct ids for the files give a staged list with distinct ids |
| `Upload.NewPanels` | manga-creator/src/components/UploadScreen/index.tsx:52-56 | exactly one panel per staged image in staged order, imageUrl equal to its previewUrl; the first carries the pending caption and every later one an empty caption |
| `Upload.Commit` | manga-creator/src/components/UploadScreen/index.tsx:48-63 | with nothing staged, panels, staged list and pending caption are unchanged; otherwise panels become the old panels followed by the new ones (old prefix kept, length grows by the number staged), and the staged list and the caption become empty |
| `Upload.CommitKeepsDistinct` | manga-creator/src/components/UploadScreen/index.tsx:48-63 | a commit with distinct, new panel ids keeps the panel ids distinct |
| `Upload.CommitExample` | manga-creator/src/components/UploadScreen/index.tsx:48-63 | staged A, B, C with caption "Hi" give old panels followed by panels for A ("Hi"), B ("") and C (""); staged list and caption empty |
| `Editor.Editor.constructor` | manga-creator/src/App.tsx:7-8 | the initial state is the upload view with no panels (App.tsx:7-8), nothing staged and an empty caption (the upload screen's initial state, UploadScreen/index.tsx:27-28) |
| `Editor.Editor.UpdatePanelText` | manga-creator/src/App.tsx:11-15 | panels become `UpdateText` of the old panels; the rest of the state is unchanged; ids stay distinct |
| `Editor.Editor.RemovePanel` | manga-creator/src/App.tsx:17-19 | panels become `RemoveById` of the old panels; the rest is unchanged; ids stay distinct |
| `Editor.Editor.MovePanelUp` | manga-creator/src/App.tsx:21-26 | panels become `MoveUp` of the old panels; the rest is unchanged |
| `Editor.Editor.MovePanelDown` | manga-creator/src/App.tsx:28-33 | panels become `MoveDown` of the old panels; the rest is unchanged |
| `Editor.Editor.AddPanels` | manga-creator/src/App.tsx:35-37 | panels become old panels followed by the batch; the old prefix is kept; the length grows by the batch size |
| `Editor.Editor.GoToPreviewScreen` | manga-creator/src/components/UploadScreen/index.tsx:94 | the button is disabled while the panel list is empty (line 94, passed to the button in Layout/index.tsx:27-33), so then nothing changes; otherwise the view becomes preview (App.tsx:41) and the staged list and caption are discarded, because the upload screen is unmounted (App.tsx:44-59); panels are never touched, and with `Valid()` the preview is reached only with a non-empty panel list |
| `Editor.Editor.GoToUploadScreen` | manga-creator/src/App.tsx:40 | the view becomes upload; panels, staged list and caption are unchanged |
| `Editor.Editor.SetCurrentText` | manga-creator/src/components/UploadScreen/index.tsx:31-33 | the pending caption becomes the typed text; nothing else changes |
| `Editor.Editor.HandleFileSelect` | manga-creator/src/components/UploadScreen/index.tsx:35-46 | the staged list becomes `SelectFiles` of the old one; nothing else changes |
| `Editor.Editor.RemovePreviewImage` | manga-creator/src/components/UploadScreen/index.tsx:71-73 | the staged list becomes `RemoveById` of the old one; nothing else changes |
| `Editor.Editor.MovePreviewImageUp` | manga-creator/src/components/UploadScreen/index.tsx:75-80 | the staged list becomes `MoveUp` of the old one; nothing else changes |
| `Editor.Editor.MovePreviewImageDown` | manga-creator/src/components/UploadScreen/index.tsx:82-87 | the staged list becomes `MoveDown` of the old one; nothing else changes |
| `Editor.Editor.HandleAddSelectedImages` | manga-creator/src/components/UploadScreen/index.tsx:48-69 | panels, staged list and caption become those of `Commit` on the old state; the view is unchanged; ids stay distinct |
| `Editor.Session` | manga-creator/src/App.tsx:44-59 | for any two files with distinct ids and any caption: selecting them, typing the caption, committing, moving panel 2 up and going to preview ends in the preview view with the two panels swapped and the caption only on the panel committed first (the steps are split into the helpers `SelectTwo` and `CommitTwo`) |

## Left out

- Rendering, JSX and the presentation components are not modelled: `Layout`, `Button`, `MangaPanel`, `PreviewImage`, and the caption overlay of `PreviewScreen`. They only display the state.
- `File` objects and `URL.createObjectURL` are browser APIs. A file selection is modelled as the list of object URLs created for the files.
- The object URLs are never released. The source never revokes them either, so there is no release step to model.
- Ids come from `Date.now()`, a clock read. They are method parameters instead, and the class methods require them to be distinct and, for panels, new to the panel list.
- Resetting the DOM file input through `fileInputRef` (UploadScreen/index.tsx:66-68) is DOM I/O and is not modelled.
- React's asynchronous state batching is not modelled. Each handler is one atomic update of the state.
- Editor.Editor.MovePanelUp: requires `index < |panels|`. The code does not guard the index, and an out-of-range write would grow the JavaScript array with `undefined`. The buttons pass only indices produced by `.map` over the list, so the model takes the valid range as a precondition rather than modelling array growth.
- Editor.Editor.MovePanelDown: requires `index < |panels|`, for the same reason.
- Editor.Editor.MovePreviewImageUp: requires `index < |staged|`, for the same reason.
- Editor.Editor.MovePreviewImageDown: requires `index < |staged|`, for the same reason.
- The upload-screen handlers and the panel handlers require the upload view. The panel handlers only reach the upload screen as callbacks, and the upload screen is mounted only in that view.
