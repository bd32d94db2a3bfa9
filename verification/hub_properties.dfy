/**
 * What each ServerMusicHub mutation leaves alone, and how the mutations and
 * queries combine: a delete followed by a re-add restores the lookup, and a
 * membership append shows up at the end of the membership query.
 */
module HubProperties {
  import opened Text
  import opened Failures
  import opened AudioElements
  import opened Albums
  import PlayLists
  import opened Seqs
  import opened MusicHub
  import opened HubQueries

  // --------------------------------------------------------------------- adds

  /** addElement leaves the albums and playlists, and their lookups, untouched. */
  lemma AddElementFrame(h: Hub, e: AudioElement)
    requires Valid(h)
    ensures var h' := AddElement(h, e);
            && AllAlbums(h') == AllAlbums(h) && AllPlaylists(h') == AllPlaylists(h)
            && (forall t :: AlbumByTitle(h', t) == AlbumByTitle(h, t))
            && (forall t :: PlaylistByTitle(h', t) == PlaylistByTitle(h, t))
  {
  }

  /** addAlbum leaves the elements and playlists, and their lookups, untouched. */
  lemma AddAlbumFrame(h: Hub, a: Album)
    requires Valid(h)
    ensures var h' := AddAlbum(h, a);
            && h'.elements == h.elements && AllPlaylists(h') == AllPlaylists(h)
            && (forall t :: ElementByTitle(h', t) == ElementByTitle(h, t))
            && (forall id :: ElementById(h', id) == ElementById(h, id))
            && (forall t :: PlaylistByTitle(h', t) == PlaylistByTitle(h, t))
  {
  }

  /** addPlaylist leaves the elements and albums, and their lookups, untouched. */
  lemma AddPlaylistFrame(h: Hub, p: PlayList)
    requires Valid(h)
    ensures var h' := AddPlaylist(h, p);
            && h'.elements == h.elements && AllAlbums(h') == AllAlbums(h)
            && (forall t :: ElementByTitle(h', t) == ElementByTitle(h, t))
            && (forall id :: ElementById(h', id) == ElementById(h, id))
            && (forall t :: AlbumByTitle(h', t) == AlbumByTitle(h, t))
  {
  }

  // ------------------------------------------------------------------ deletes

  /** deleteElement only forgets the resolved element: every other title key and
      every other id keeps its lookup, and albums and playlists are untouched. */
  lemma DeleteElementFrame(h: Hub, title: string)
    requires Valid(h) && DeleteElement(h, title).Ok?
    ensures var h' := DeleteElement(h, title).value;
            var e := ElementByTitle(h, title).value;
            && (forall t :: Lower(t) != Lower(title) ==> ElementByTitle(h', t) == ElementByTitle(h, t))
            && (forall id :: id != e.uuid ==> ElementById(h', id) == ElementById(h, id))
            && AllAlbums(h') == AllAlbums(h) && AllPlaylists(h') == AllPlaylists(h)
            && (forall t :: AlbumByTitle(h', t) == AlbumByTitle(h, t))
            && (forall t :: PlaylistByTitle(h', t) == PlaylistByTitle(h, t))
  {
  }

  /** The album list after removing the reference at position i. */
  lemma RemovedAt(h: Hub, h': Hub, i: nat)
    requires HandlesIn(h.albumRefs, |h.albumHeap|) && HandlesIn(h'.albumRefs, |h'.albumHeap|)
    requires h'.albumHeap == h.albumHeap && i < |h.albumRefs|
    requires h'.albumRefs == h.albumRefs[..i] + h.albumRefs[i + 1..]
    ensures AllAlbums(h') == AllAlbums(h)[..i] + AllAlbums(h)[i + 1..]
  {
    var a, b := AllAlbums(h'), AllAlbums(h)[..i] + AllAlbums(h)[i + 1..];
    forall j | 0 <= j < |a| ensures a[j] == b[j] {
      if j < i { assert h'.albumRefs[j] == h.albumRefs[j]; }
      else { assert h'.albumRefs[j] == h.albumRefs[j + 1]; }
    }
  }

  lemma PlaylistRemovedAt(h: Hub, h': Hub, i: nat)
    requires HandlesIn(h.playlistRefs, |h.playlistHeap|) && HandlesIn(h'.playlistRefs, |h'.playlistHeap|)
    requires h'.playlistHeap == h.playlistHeap && i < |h.playlistRefs|
    requires h'.playlistRefs == h.playlistRefs[..i] + h.playlistRefs[i + 1..]
    ensures AllPlaylists(h') == AllPlaylists(h)[..i] + AllPlaylists(h)[i + 1..]
  {
    var a, b := AllPlaylists(h'), AllPlaylists(h)[..i] + AllPlaylists(h)[i + 1..];
    forall j | 0 <= j < |a| ensures a[j] == b[j] {
      if j < i { assert h'.playlistRefs[j] == h.playlistRefs[j]; }
      else { assert h'.playlistRefs[j] == h.playlistRefs[j + 1]; }
    }
  }

  /** deleteAlbum drops exactly the resolved album from albums(), keeping the order
      of the rest. */
  lemma DeleteAlbumRemovesOne(h: Hub, title: string)
    requires Valid(h) && DeleteAlbum(h, title).Ok?
    ensures exists i :: 0 <= i < |AllAlbums(h)| && AllAlbums(h)[i] == AlbumByTitle(h, title).value
                        && AllAlbums(DeleteAlbum(h, title).value) == AllAlbums(h)[..i] + AllAlbums(h)[i + 1..]
  {
    var h' := DeleteAlbum(h, title).value;
    var a := AlbumRef(h, title).value;
    var i :| 0 <= i < |h.albumRefs| && h.albumRefs[i] == a && a !in h.albumRefs[..i]
             && h'.albumRefs == h.albumRefs[..i] + h.albumRefs[i + 1..];
    RemovedAt(h, h', i);
    assert AllAlbums(h)[i] == AlbumByTitle(h, title).value;
  }

  /** deleteAlbum leaves other album titles, the elements and the playlists alone. */
  lemma DeleteAlbumFrame(h: Hub, title: string)
    requires Valid(h) && DeleteAlbum(h, title).Ok?
    ensures var h' := DeleteAlbum(h, title).value;
            && (forall t :: Lower(t) != Lower(title) ==> AlbumByTitle(h', t) == AlbumByTitle(h, t))
            && h'.elements == h.elements && AllPlaylists(h') == AllPlaylists(h)
            && (forall t :: ElementByTitle(h', t) == ElementByTitle(h, t))
            && (forall id :: ElementById(h', id) == ElementById(h, id))
            && (forall t :: PlaylistByTitle(h', t) == PlaylistByTitle(h, t))
  {
  }

  /** deletePlayList drops exactly the resolved playlist from playlists(). */
  lemma DeletePlayListRemovesOne(h: Hub, title: string)
    requires Valid(h) && DeletePlayList(h, title).Ok?
    ensures exists i :: 0 <= i < |AllPlaylists(h)| && AllPlaylists(h)[i] == PlaylistByTitle(h, title).value
                        && AllPlaylists(DeletePlayList(h, title).value) == AllPlaylists(h)[..i] + AllPlaylists(h)[i + 1..]
  {
    var h' := DeletePlayList(h, title).value;
    var p := PlayListRef(h, title).value;
    var i :| 0 <= i < |h.playlistRefs| && h.playlistRefs[i] == p && p !in h.playlistRefs[..i]
             && h'.playlistRefs == h.playlistRefs[..i] + h.playlistRefs[i + 1..];
    PlaylistRemovedAt(h, h', i);
    assert AllPlaylists(h)[i] == PlaylistByTitle(h, title).value;
  }

  /** deletePlayList leaves other playlist titles, the elements and the albums alone. */
  lemma DeletePlayListFrame(h: Hub, title: string)
    requires Valid(h) && DeletePlayList(h, title).Ok?
    ensures var h' := DeletePlayList(h, title).value;
            && (forall t :: Lower(t) != Lower(title) ==> PlaylistByTitle(h', t) == PlaylistByTitle(h, t))
            && h'.elements == h.elements && AllAlbums(h') == AllAlbums(h)
            && (forall t :: ElementByTitle(h', t) == ElementByTitle(h, t))
            && (forall id :: ElementById(h', id) == ElementById(h, id))
            && (forall t :: AlbumByTitle(h', t) == AlbumByTitle(h, t))
  {
  }

  /** Deleting an element and adding it back makes it findable again by the same
      title and by its id. */
  lemma DeleteThenAddElement(h: Hub, title: string)
    requires Valid(h) && ElementByTitle(h, title).Ok?
    ensures var e := ElementByTitle(h, title).value;
            var h' := AddElement(DeleteElement(h, title).value, e);
            && ElementByTitle(DeleteElement(h, title).value, title).Err?
            && ElementByTitle(h', title) == Ok(e)
            && ElementById(h', e.uuid) == Ok(e)
  {
  }

  /** Deleting an album and adding the same object back makes it findable again. */
  lemma DeleteThenAddAlbum(h: Hub, title: string)
    requires Valid(h) && AlbumByTitle(h, title).Ok?
    ensures var a := AlbumByTitle(h, title).value;
            && AlbumByTitle(DeleteAlbum(h, title).value, title).Err?
            && AlbumByTitle(AddAlbum(DeleteAlbum(h, title).value, a), title) == Ok(a)
  {
  }

  /** Deleting a playlist and adding the same object back makes it findable again. */
  lemma DeleteThenAddPlaylist(h: Hub, title: string)
    requires Valid(h) && PlaylistByTitle(h, title).Ok?
    ensures var p := PlaylistByTitle(h, title).value;
            && PlaylistByTitle(DeletePlayList(h, title).value, title).Err?
            && PlaylistByTitle(AddPlaylist(DeletePlayList(h, title).value, p), title) == Ok(p)
  {
  }

  // ------------------------------------------------------- membership appends

  /** addElementToAlbum changes albums() at exactly one position, the resolved
      album's, to that album with the song's id appended. */
  lemma AddElementToAlbumUpdatesOne(h: Hub, elementTitle: string, albumTitle: string)
    requires Valid(h) && AddElementToAlbum(h, elementTitle, albumTitle).Ok?
    ensures var h' := AddElementToAlbum(h, elementTitle, albumTitle).value;
            var a := AlbumByTitle(h, albumTitle).value;
            var id := ElementByTitle(h, elementTitle).value.uuid;
            exists i :: 0 <= i < |AllAlbums(h)| && AllAlbums(h)[i] == a
                        && AllAlbums(h') == AllAlbums(h)[i := AddSong(a, id)]
  {
    var h' := AddElementToAlbum(h, elementTitle, albumTitle).value;
    var r := AlbumRef(h, albumTitle).value;
    var a := AlbumByTitle(h, albumTitle).value;
    var id := ElementByTitle(h, elementTitle).value.uuid;
    assert h'.albumRefs == h.albumRefs;
    assert h'.albumHeap == h.albumHeap[r := AddSong(a, id)];
    var i :| 0 <= i < |h.albumRefs| && h.albumRefs[i] == r;
    assert AllAlbums(h)[i] == a;
    forall j | 0 <= j < |h.albumRefs| && j != i
      ensures AllAlbums(h')[j] == AllAlbums(h)[j]
    {
      assert h.albumRefs[j] != r;
    }
    assert AllAlbums(h') == AllAlbums(h)[i := AddSong(a, id)];
  }

  /** addElementToAlbum leaves every other album title resolving as before. */
  lemma AddElementToAlbumOtherTitles(h: Hub, elementTitle: string, albumTitle: string)
    requires Valid(h) && AddElementToAlbum(h, elementTitle, albumTitle).Ok?
    ensures var h' := AddElementToAlbum(h, elementTitle, albumTitle).value;
            forall t :: Lower(t) != Lower(albumTitle) ==> AlbumByTitle(h', t) == AlbumByTitle(h, t)
  {
    var h' := AddElementToAlbum(h, elementTitle, albumTitle).value;
    var r := AlbumRef(h, albumTitle).value;
    assert h'.albumsByName == h.albumsByName;
    assert h'.albumHeap == h.albumHeap[r := h'.albumHeap[r]];
    forall t | Lower(t) != Lower(albumTitle)
      ensures AlbumByTitle(h', t) == AlbumByTitle(h, t)
    {
      if Lower(t) in h.albumsByName {
        assert h.albumsByName[Lower(t)] != r;
      }
    }
  }

  /** addElementToAlbum leaves elements and playlists untouched. */
  lemma AddElementToAlbumFrame(h: Hub, elementTitle: string, albumTitle: string)
    requires Valid(h) && AddElementToAlbum(h, elementTitle, albumTitle).Ok?
    ensures var h' := AddElementToAlbum(h, elementTitle, albumTitle).value;
            && h'.elements == h.elements && AllPlaylists(h') == AllPlaylists(h)
            && (forall t :: ElementByTitle(h', t) == ElementByTitle(h, t))
            && (forall id' :: ElementById(h', id') == ElementById(h, id'))
            && (forall t :: PlaylistByTitle(h', t) == PlaylistByTitle(h, t))
  {
  }

  /** addElementToPlayList changes playlists() at exactly one position, the
      resolved playlist's, to that playlist with the element's id appended. */
  lemma AddElementToPlayListUpdatesOne(h: Hub, elementTitle: string, playListTitle: string)
    requires Valid(h) && AddElementToPlayList(h, elementTitle, playListTitle).Ok?
    ensures var h' := AddElementToPlayList(h, elementTitle, playListTitle).value;
            var p := PlaylistByTitle(h, playListTitle).value;
            var id := ElementByTitle(h, elementTitle).value.uuid;
            exists i :: 0 <= i < |AllPlaylists(h)| && AllPlaylists(h)[i] == p
                        && AllPlaylists(h') == AllPlaylists(h)[i := PlayLists.AddElement(p, id)]
  {
    var h' := AddElementToPlayList(h, elementTitle, playListTitle).value;
    var r := PlayListRef(h, playListTitle).value;
    var p := PlaylistByTitle(h, playListTitle).value;
    var id := ElementByTitle(h, elementTitle).value.uuid;
    assert h'.playlistRefs == h.playlistRefs;
    assert h'.playlistHeap == h.playlistHeap[r := PlayLists.AddElement(p, id)];
    var i :| 0 <= i < |h.playlistRefs| && h.playlistRefs[i] == r;
    assert AllPlaylists(h)[i] == p;
    forall j | 0 <= j < |h.playlistRefs| && j != i
      ensures AllPlaylists(h')[j] == AllPlaylists(h)[j]
    {
      assert h.playlistRefs[j] != r;
    }
    assert AllPlaylists(h') == AllPlaylists(h)[i := PlayLists.AddElement(p, id)];
  }

  /** addElementToPlayList leaves every other playlist title resolving as before. */
  lemma AddElementToPlayListOtherTitles(h: Hub, elementTitle: string, playListTitle: string)
    requires Valid(h) && AddElementToPlayList(h, elementTitle, playListTitle).Ok?
    ensures var h' := AddElementToPlayList(h, elementTitle, playListTitle).value;
            forall t :: Lower(t) != Lower(playListTitle) ==> PlaylistByTitle(h', t) == PlaylistByTitle(h, t)
  {
    var h' := AddElementToPlayList(h, elementTitle, playListTitle).value;
    var r := PlayListRef(h, playListTitle).value;
    assert h'.playlistByName == h.playlistByName;
    assert h'.playlistHeap == h.playlistHeap[r := h'.playlistHeap[r]];
    forall t | Lower(t) != Lower(playListTitle)
      ensures PlaylistByTitle(h', t) == PlaylistByTitle(h, t)
    {
      if Lower(t) in h.playlistByName {
        assert h.playlistByName[Lower(t)] != r;
      }
    }
  }

  /** addElementToPlayList leaves elements and albums untouched. */
  lemma AddElementToPlayListFrame(h: Hub, elementTitle: string, playListTitle: string)
    requires Valid(h) && AddElementToPlayList(h, elementTitle, playListTitle).Ok?
    ensures var h' := AddElementToPlayList(h, elementTitle, playListTitle).value;
            && h'.elements == h.elements && AllAlbums(h') == AllAlbums(h)
            && (forall t :: ElementByTitle(h', t) == ElementByTitle(h, t))
            && (forall id' :: ElementById(h', id') == ElementById(h, id'))
            && (forall t :: AlbumByTitle(h', t) == AlbumByTitle(h, t))
  {
  }

  /** After addElementToAlbum, getAlbumSongs ends with the added song, provided the
      song is also the element its id resolves to. */
  lemma AlbumSongsAfterAdd(h: Hub, elementTitle: string, albumTitle: string)
    requires Valid(h) && AddElementToAlbum(h, elementTitle, albumTitle).Ok?
    requires AlbumSongs(h, albumTitle).Ok?
    requires var e := ElementByTitle(h, elementTitle).value; ElementById(h, e.uuid) == Ok(e)
    ensures AlbumSongs(AddElementToAlbum(h, elementTitle, albumTitle).value, albumTitle)
            == Ok(AlbumSongs(h, albumTitle).value + [ElementByTitle(h, elementTitle).value])
  {
    var h' := AddElementToAlbum(h, elementTitle, albumTitle).value;
    var a := AlbumByTitle(h, albumTitle).value;
    var e := ElementByTitle(h, elementTitle).value;
    ResolveSongsSnoc(h.elementsById, a.songs, e.uuid);
    assert AddSong(a, e.uuid).songs == a.songs + [e.uuid];
  }

  /** After addElementToPlayList, getPlaylistElements ends with the added element,
      provided the element is also the one its id resolves to. */
  lemma PlaylistElementsAfterAdd(h: Hub, elementTitle: string, playListTitle: string)
    requires Valid(h) && AddElementToPlayList(h, elementTitle, playListTitle).Ok?
    requires PlaylistElements(h, playListTitle).Ok?
    requires var e := ElementByTitle(h, elementTitle).value; ElementById(h, e.uuid) == Ok(e)
    ensures PlaylistElements(AddElementToPlayList(h, elementTitle, playListTitle).value, playListTitle)
            == Ok(PlaylistElements(h, playListTitle).value + [ElementByTitle(h, elementTitle).value])
  {
    var p := PlaylistByTitle(h, playListTitle).value;
    var e := ElementByTitle(h, elementTitle).value;
    ResolveElementsSnoc(h.elementsById, p.elements, e.uuid);
    assert PlayLists.AddElement(p, e.uuid).elements == p.elements + [e.uuid];
  }

  // ------------------------------------------------------------ kind filters

  /** addElement extends songs() or audioBooks(), whichever matches its kind, by
      that element, and leaves the other filter unchanged. */
  lemma AddElementFilters(h: Hub, e: AudioElement)
    requires Valid(h)
    ensures e.Song? ==> Songs(AddElement(h, e)) == Songs(h) + [e] && AudioBooks(AddElement(h, e)) == AudioBooks(h)
    ensures e.AudioBook? ==> AudioBooks(AddElement(h, e)) == AudioBooks(h) + [e] && Songs(AddElement(h, e)) == Songs(h)
  {
    FiltersDistribute(h.elements, [e]);
    assert [e][1..] == [];
  }
}
