/** The album picker dialog. It edits a temporary list of album ids and
    hands it to the page only on confirmation; a checkbox is ticked when
    its album id is in the temporary list. */
module AlbumSelectModal {
  import opened Types
  import QuizUtils
  import SelectAlbumsPage
  import SongsApi
  import Js
  import opened Wrappers

  /** `ids.filter(id => id !== albumId)`. */
  function Remove(ids: seq<string>, albumId: string): (r: seq<string>)
    ensures |r| <= |ids|
    ensures albumId !in r
    ensures forall x :: x != albumId ==> (x in r <==> x in ids)
  {
    if |ids| == 0 then []
    else (if ids[0] == albumId then [] else [ids[0]]) + Remove(ids[1..], albumId)
  }

  /** Removing distributes over concatenation, so the remaining ids keep
      their order. */
  lemma {:induction false} RemoveAppend(a: seq<string>, b: seq<string>, albumId: string)
    ensures Remove(a + b, albumId) == Remove(a, albumId) + Remove(b, albumId)
    decreases |a|
  {
    if |a| > 0 {
      assert (a + b)[0] == a[0] && (a + b)[1..] == a[1..] + b;
      RemoveAppend(a[1..], b, albumId);
    } else {
      assert a + b == b;
    }
  }

  /** Removing an id that is not there changes nothing. */
  lemma {:induction false} RemoveAbsent(ids: seq<string>, albumId: string)
    requires albumId !in ids
    ensures Remove(ids, albumId) == ids
    decreases |ids|
  {
    if |ids| > 0 {
      assert ids[0] in ids;
      RemoveAbsent(ids[1..], albumId);
      assert ids == [ids[0]] + ids[1..];
    }
  }

  /** handleAlbumToggle: ticking appends the id at the end, without checking
      whether it is already there; unticking removes every copy of it. No
      other checkbox changes. */
  function HandleAlbumToggle(temp: seq<string>, albumId: string, checked: bool): (r: seq<string>)
    ensures albumId in r <==> checked
    ensures forall x :: x != albumId ==> (x in r <==> x in temp)
    ensures checked ==> |r| == |temp| + 1 && r[..|temp|] == temp && r[|temp|] == albumId
    ensures !checked ==> |r| <= |temp|
  {
    if checked then temp + [albumId] else Remove(temp, albumId)
  }

  /** Ticking and then unticking a box is the same as unticking it, and
      gives back the list when the id was not in it. */
  lemma ToggleOnThenOff(temp: seq<string>, albumId: string)
    ensures HandleAlbumToggle(HandleAlbumToggle(temp, albumId, true), albumId, false)
      == HandleAlbumToggle(temp, albumId, false)
    ensures albumId !in temp ==>
      HandleAlbumToggle(HandleAlbumToggle(temp, albumId, true), albumId, false) == temp
  {
    RemoveAppend(temp, [albumId], albumId);
    assert Remove([albumId], albumId) == [] + Remove([], albumId);
    assert Remove(temp, albumId) + [] == Remove(temp, albumId);
    if albumId !in temp {
      RemoveAbsent(temp, albumId);
    }
  }

  /** handleSelectAll: every catalog album id, in catalog order, so every
      box is ticked. */
  function HandleSelectAll(artists: seq<Artist>): (r: seq<string>)
    ensures |r| == |CatalogAlbums(artists)|
    ensures forall k :: 0 <= k < |r| ==> r[k] == CatalogAlbums(artists)[k].id
    ensures forall al :: al in CatalogAlbums(artists) ==> al.id in r
  {
    var ids := CatalogAlbumIds(artists);
    assert forall k :: 0 <= k < |ids| ==> CatalogAlbums(artists)[k].id in ids;
    ids
  }

  /** handleDeselectAll: no box is ticked. */
  function HandleDeselectAll(): (r: seq<string>)
    ensures forall x :: x !in r
  {
    []
  }

  /** The dialog's own state. */
  datatype Modal = Modal(isOpen: bool, temp: seq<string>)

  /** Opening the dialog copies the page's selection into it. */
  function Open(selected: seq<string>): (m: Modal)
    ensures m.isOpen && m.temp == selected
  {
    Modal(true, selected)
  }

  /** The page's selection and the dialog once it has closed. */
  datatype Closed = Closed(selection: seq<string>, modal: Modal)

  /** The confirm button is disabled while the dialog's list is empty. The
      list can hold ids that no box shows, so this is not the same as "no
      box is ticked" (`UnknownUrlIdEnablesConfirm`). */
  predicate ConfirmEnabled(m: Modal) {
    |m.temp| > 0
  }

  /** A ticked box, one shown for a catalog album, enables the confirm
      button. */
  lemma TickedBoxEnablesConfirm(m: Modal, artists: seq<Artist>, al: Album)
    requires al in CatalogAlbums(artists) && al.id in m.temp
    ensures ConfirmEnabled(m)
  {
  }

  /** The converse fails: the dialog copies the address's ids as they are,
      so `?albums=<id>` naming no catalog album (`?albums=zzz`, say) opens it
      with the confirm button enabled while no box is ticked. */
  lemma UnknownUrlIdEnablesConfirm(artists: seq<Artist>, id: string)
    requires SongsApi.Separator !in id && !Js.IsBlank(id)
    requires forall al :: al in CatalogAlbums(artists) ==> al.id != id
    ensures var m := Open(SelectAlbumsPage.InitialSelection(artists, Some(id)));
      && ConfirmEnabled(m)
      && forall al :: al in CatalogAlbums(artists) ==> al.id !in m.temp
  {
    SongsApi.SingleId(id);
  }

  /** handleConfirm: the page takes the ticked ids as they stand. */
  function HandleConfirm(m: Modal): (c: Closed)
    ensures !c.modal.isOpen
    ensures c.selection == m.temp
  {
    Closed(m.temp, m.(isOpen := false))
  }

  /** handleCancel: the page keeps its selection and the dialog forgets the
      edits. */
  function HandleCancel(m: Modal, selected: seq<string>): (c: Closed)
    ensures !c.modal.isOpen
    ensures c.selection == selected && c.modal.temp == selected
  {
    Closed(selected, Modal(false, selected))
  }

  /** One edit made inside the dialog. */
  datatype Edit = Toggle(albumId: string, checked: bool) | SelectAll | DeselectAll

  function ApplyEdit(m: Modal, e: Edit, artists: seq<Artist>): Modal {
    match e
    case Toggle(id, checked) => m.(temp := HandleAlbumToggle(m.temp, id, checked))
    case SelectAll => m.(temp := HandleSelectAll(artists))
    case DeselectAll => m.(temp := HandleDeselectAll())
  }

  /** The dialog after a series of edits, in order. */
  function ApplyEdits(m: Modal, edits: seq<Edit>, artists: seq<Artist>): (r: Modal)
    decreases |edits|
  {
    if |edits| == 0 then m else ApplyEdits(ApplyEdit(m, edits[0], artists), edits[1..], artists)
  }

  /** Editing in two rounds is editing once with both rounds in order. */
  lemma {:induction false} ApplyEditsAppend(m: Modal, a: seq<Edit>, b: seq<Edit>, artists: seq<Artist>)
    ensures ApplyEdits(m, a + b, artists) == ApplyEdits(ApplyEdits(m, a, artists), b, artists)
    decreases |a|
  {
    if |a| > 0 {
      assert (a + b)[0] == a[0] && (a + b)[1..] == a[1..] + b;
      ApplyEditsAppend(ApplyEdit(m, a[0], artists), a[1..], b, artists);
    } else {
      assert a + b == b;
    }
  }

  /** Whatever was ticked before, ending with "select all" and confirming
      hands the page every catalog album id in catalog order, and ending
      with "deselect all" leaves the confirm button disabled. */
  lemma LastBulkEditWins(m: Modal, edits: seq<Edit>, artists: seq<Artist>)
    ensures HandleConfirm(ApplyEdits(m, edits + [SelectAll], artists)).selection == CatalogAlbumIds(artists)
    ensures !ConfirmEnabled(ApplyEdits(m, edits + [DeselectAll], artists))
  {
    ApplyEditsAppend(m, edits, [SelectAll], artists);
    ApplyEditsAppend(m, edits, [DeselectAll], artists);
    assert [SelectAll][1..] == [] && [DeselectAll][1..] == [];
  }

  /** After "deselect all" the confirm button is disabled, so the dialog
      can only be cancelled or ticked again. */
  lemma DeselectAllDisablesConfirm(m: Modal, artists: seq<Artist>)
    ensures !ConfirmEnabled(ApplyEdit(m, DeselectAll, artists))
    ensures ApplyEdit(m, DeselectAll, artists).isOpen == m.isOpen
  {
  }

  /** Whatever is edited, cancelling leaves the page's selection as it was,
      and opening then confirming without edits changes nothing either. */
  lemma CancelDiscardsEdits(selected: seq<string>, edits: seq<Edit>, artists: seq<Artist>)
    ensures HandleCancel(ApplyEdits(Open(selected), edits, artists), selected).selection == selected
    ensures HandleConfirm(ApplyEdits(Open(selected), [], artists)).selection == selected
  {
  }

  /** A confirmed selection is never empty, so the page's start button never
      refuses it. */
  lemma ConfirmedSelectionStarts(m: Modal)
    requires ConfirmEnabled(m)
    ensures SelectAlbumsPage.HandleStartQuiz(true, HandleConfirm(m).selection).GoToQuiz?
  {
  }

  /** Selecting all and confirming puts every catalog track into play. */
  lemma SelectAllCoversCatalog(m: Modal, artists: seq<Artist>)
    ensures var c := HandleConfirm(ApplyEdit(m, SelectAll, artists));
      QuizUtils.TracksFromSelectedAlbums(artists, c.selection)
        == QuizUtils.ConcatTracks(CatalogAlbums(artists))
  {
    QuizUtils.FlattenAllIsWholeCatalog(artists);
  }
}
