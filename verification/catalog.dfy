/**
 * The catalog state of ServerMusicHub: three canonical lists (elements,
 * albums, playlists) and four side indices (element by UUID, element by
 * lower-cased title, album by lower-cased title, playlist by lower-cased
 * title), kept consistent by every mutation.
 *
 * Albums and playlists are mutable objects that the lists and the indices
 * share by reference (neither class overrides equals, so List.remove works by
 * identity). The model keeps every album (resp. playlist) object the hub has
 * held in an append-only heap and refers to it by its position there, a
 * Handle. Elements are never mutated, so they are stored as plain values.
 */
module MusicHub {
  import opened Text
  import opened Failures
  import opened AudioElements
  import opened Albums
  import PlayLists
  import opened Seqs

  type PlayList = PlayLists.PlayList

  /** Reference to an Album or PlayList object: its position in the hub's heap. */
  type Handle = nat

  datatype Hub = Hub(
    elements: seq<AudioElement>,
    albumRefs: seq<Handle>,
    playlistRefs: seq<Handle>,
    albumHeap: seq<Album>,
    playlistHeap: seq<PlayList>,
    elementsById: map<Uuid, AudioElement>,
    elementsByName: map<string, AudioElement>,
    albumsByName: map<string, Handle>,
    playlistByName: map<string, Handle>)

  ghost predicate HandlesIn(hs: seq<Handle>, n: nat)
  {
    forall i :: 0 <= i < |hs| ==> hs[i] < n
  }

  /** Each element index entry points into the element list, under its own key. */
  ghost predicate ElementIndexesValid(h: Hub)
  {
    && (forall id :: id in h.elementsById ==>
          h.elementsById[id] in h.elements && h.elementsById[id].uuid == id)
    && (forall k :: k in h.elementsByName ==>
          h.elementsByName[k] in h.elements && Lower(h.elementsByName[k].title) == k)
  }

  /** The album list holds distinct live objects, and each title index entry points
      into that list under the lower-cased title of the album it names. */
  ghost predicate AlbumIndexValid(h: Hub)
  {
    && HandlesIn(h.albumRefs, |h.albumHeap|)
    && Distinct(h.albumRefs)
    && (forall k :: k in h.albumsByName ==>
          && h.albumsByName[k] in h.albumRefs
          && h.albumsByName[k] < |h.albumHeap|
          && Lower(h.albumHeap[h.albumsByName[k]].title) == k)
  }

  ghost predicate PlayListIndexValid(h: Hub)
  {
    && HandlesIn(h.playlistRefs, |h.playlistHeap|)
    && Distinct(h.playlistRefs)
    && (forall k :: k in h.playlistByName ==>
          && h.playlistByName[k] in h.playlistRefs
          && h.playlistByName[k] < |h.playlistHeap|
          && Lower(h.playlistHeap[h.playlistByName[k]].title) == k)
  }

  /** The consistency invariant: every index entry k -> v has v in the matching list
      and k == lower(v.title) (or k == v.uuid). The converse is deliberately absent:
      titles are not unique, so a list entry can be shadowed in its title index. */
  ghost predicate Valid(h: Hub)
  {
    ElementIndexesValid(h) && AlbumIndexValid(h) && PlayListIndexValid(h)
  }

  /** albums(): the album objects in insertion order. */
  function AllAlbums(h: Hub): (r: seq<Album>)
    requires HandlesIn(h.albumRefs, |h.albumHeap|)
    ensures |r| == |h.albumRefs|
    ensures forall i :: 0 <= i < |r| ==> r[i] == h.albumHeap[h.albumRefs[i]]
  {
    seq(|h.albumRefs|, i requires 0 <= i < |h.albumRefs| => h.albumHeap[h.albumRefs[i]])
  }

  /** playlists(): the playlist objects in insertion order. */
  function AllPlaylists(h: Hub): (r: seq<PlayList>)
    requires HandlesIn(h.playlistRefs, |h.playlistHeap|)
    ensures |r| == |h.playlistRefs|
    ensures forall i :: 0 <= i < |r| ==> r[i] == h.playlistHeap[h.playlistRefs[i]]
  {
    seq(|h.playlistRefs|, i requires 0 <= i < |h.playlistRefs| => h.playlistHeap[h.playlistRefs[i]])
  }

  // ---------------------------------------------------------------- lookups

  /** elementByTitle: case-insensitive exact match through the title index. */
  function ElementByTitle(h: Hub, title: string): (r: Result<AudioElement, HubError>)
    requires Valid(h)
    ensures r.Ok? <==> Lower(title) in h.elementsByName
    ensures r.Ok? ==> r.value in h.elements && Lower(r.value.title) == Lower(title)
    ensures r.Err? ==> r.error == NoElementFound(UnknownTitle)
  {
    var k := Lower(title);
    if k in h.elementsByName then Ok(h.elementsByName[k]) else Err(NoElementFound(UnknownTitle))
  }

  /** elementById. */
  function ElementById(h: Hub, id: Uuid): (r: Result<AudioElement, HubError>)
    requires Valid(h)
    ensures r.Ok? <==> id in h.elementsById
    ensures r.Ok? ==> r.value in h.elements && r.value.uuid == id
    ensures r.Err? ==> r.error == NoElementFound(UnknownId)
  {
    if id in h.elementsById then Ok(h.elementsById[id]) else Err(NoElementFound(UnknownId))
  }

  /** The album object that albumByTitle resolves, as a reference. */
  function AlbumRef(h: Hub, title: string): (r: Result<Handle, HubError>)
    requires Valid(h)
    ensures r.Ok? <==> Lower(title) in h.albumsByName
    ensures r.Ok? ==> r.value in h.albumRefs && r.value < |h.albumHeap|
    ensures r.Ok? ==> Lower(h.albumHeap[r.value].title) == Lower(title)
    ensures r.Err? ==> r.error == NoAlbumFound
  {
    var k := Lower(title);
    if k in h.albumsByName then Ok(h.albumsByName[k]) else Err(NoAlbumFound)
  }

  /** albumByTitle. */
  function AlbumByTitle(h: Hub, title: string): (r: Result<Album, HubError>)
    requires Valid(h)
    ensures r.Ok? <==> Lower(title) in h.albumsByName
    ensures r.Ok? ==> r.value in AllAlbums(h) && Lower(r.value.title) == Lower(title)
    ensures r.Err? ==> r.error == NoAlbumFound
  {
    match AlbumRef(h, title)
    case Err(e) => Err(e)
    case Ok(a) =>
      var i :| 0 <= i < |h.albumRefs| && h.albumRefs[i] == a;
      assert AllAlbums(h)[i] == h.albumHeap[a];
      Ok(h.albumHeap[a])
  }

  function PlayListRef(h: Hub, title: string): (r: Result<Handle, HubError>)
    requires Valid(h)
    ensures r.Ok? <==> Lower(title) in h.playlistByName
    ensures r.Ok? ==> r.value in h.playlistRefs && r.value < |h.playlistHeap|
    ensures r.Ok? ==> Lower(h.playlistHeap[r.value].title) == Lower(title)
    ensures r.Err? ==> r.error == NoPlayListFound
  {
    var k := Lower(title);
    if k in h.playlistByName then Ok(h.playlistByName[k]) else Err(NoPlayListFound)
  }

  /** playlistByTitle. */
  function PlaylistByTitle(h: Hub, title: string): (r: Result<PlayList, HubError>)
    requires Valid(h)
    ensures r.Ok? <==> Lower(title) in h.playlistByName
    ensures r.Ok? ==> r.value in AllPlaylists(h) && Lower(r.value.title) == Lower(title)
    ensures r.Err? ==> r.error == NoPlayListFound
  {
    match PlayListRef(h, title)
    case Err(e) => Err(e)
    case Ok(p) =>
      var i :| 0 <= i < |h.playlistRefs| && h.playlistRefs[i] == p;
      assert AllPlaylists(h)[i] == h.playlistHeap[p];
      Ok(h.playlistHeap[p])
  }

  // -------------------------------------------------------------- mutations

  /** The constructor ServerMusicHub(): empty lists and empty indices. */
  function Empty(): (h: Hub)
    ensures Valid(h)
    ensures h.elements == [] && AllAlbums(h) == [] && AllPlaylists(h) == []
    ensures forall t :: ElementByTitle(h, t).Err? && AlbumByTitle(h, t).Err? && PlaylistByTitle(h, t).Err?
    ensures forall id :: ElementById(h, id).Err?
  {
    Hub([], [], [], [], [], map[], map[], map[], map[])
  }

  /** addElement: append to the list and put into both element indices; an element
      already indexed under the same id or lower-cased title is shadowed but stays
      in the list. */
  function AddElement(h: Hub, e: AudioElement): (h': Hub)
    requires Valid(h)
    ensures Valid(h')
    ensures h'.elements == h.elements + [e]
    ensures ElementById(h', e.uuid) == Ok(e)
    ensures forall t :: Lower(t) == Lower(e.title) ==> ElementByTitle(h', t) == Ok(e)
    ensures forall t :: Lower(t) != Lower(e.title) ==> ElementByTitle(h', t) == ElementByTitle(h, t)
    ensures forall id :: id != e.uuid ==> ElementById(h', id) == ElementById(h, id)
  {
    var h' := h.(elements := h.elements + [e],
                 elementsByName := h.elementsByName[Lower(e.title) := e],
                 elementsById := h.elementsById[e.uuid := e]);
    h'
  }

  /** addAlbum: a new album object goes to the end of the list and into the title
      index, shadowing any album indexed under the same lower-cased title. */
  function AddAlbum(h: Hub, a: Album): (h': Hub)
    requires Valid(h)
    ensures Valid(h')
    ensures AllAlbums(h') == AllAlbums(h) + [a]
    ensures forall t :: Lower(t) == Lower(a.title) ==> AlbumByTitle(h', t) == Ok(a)
    ensures forall t :: Lower(t) != Lower(a.title) ==> AlbumByTitle(h', t) == AlbumByTitle(h, t)
  {
    var r := |h.albumHeap|;
    assert r !in h.albumRefs;
    var h' := h.(albumRefs := h.albumRefs + [r],
                 albumHeap := h.albumHeap + [a],
                 albumsByName := h.albumsByName[Lower(a.title) := r]);
    assert AllAlbums(h') == AllAlbums(h) + [a];
    h'
  }

  /** addPlaylist: as addAlbum, with the playlist title index. */
  function AddPlaylist(h: Hub, p: PlayList): (h': Hub)
    requires Valid(h)
    ensures Valid(h')
    ensures AllPlaylists(h') == AllPlaylists(h) + [p]
    ensures forall t :: Lower(t) == Lower(p.title) ==> PlaylistByTitle(h', t) == Ok(p)
    ensures forall t :: Lower(t) != Lower(p.title) ==> PlaylistByTitle(h', t) == PlaylistByTitle(h, t)
  {
    var r := |h.playlistHeap|;
    assert r !in h.playlistRefs;
    var h' := h.(playlistRefs := h.playlistRefs + [r],
                 playlistHeap := h.playlistHeap + [p],
                 playlistByName := h.playlistByName[Lower(p.title) := r]);
    assert AllPlaylists(h') == AllPlaylists(h) + [p];
    h'
  }

  /** deleteElement: resolve the title; remove the first list occurrence of the
      resolved element, its id key and the lower-cased title key. */
  function DeleteElement(h: Hub, title: string): (r: Result<Hub, HubError>)
    requires Valid(h)
    ensures ElementByTitle(h, title).Err? ==> r == Err(NoElementFound(UnknownTitle))
    ensures ElementByTitle(h, title).Ok? ==> r.Ok?
    ensures r.Ok? ==>
      var e := ElementByTitle(h, title).value;
      && Valid(r.value)
      && r.value.elements == RemoveFirst(h.elements, e)
      && ElementByTitle(r.value, title).Err?
      && ElementById(r.value, e.uuid).Err?
  {
    match ElementByTitle(h, title)
    case Err(err) => Err(err)
    case Ok(e) =>
      var h' := h.(elements := RemoveFirst(h.elements, e),
                   elementsById := h.elementsById - {e.uuid},
                   elementsByName := h.elementsByName - {Lower(title)});
      assert ElementIndexesValid(h') by {
        forall k | k in h'.elementsByName
          ensures h'.elementsByName[k] in h'.elements
        {
          assert h'.elementsByName[k] != e;
          assert h'.elementsByName[k] in multiset(h.elements);
        }
        forall id | id in h'.elementsById
          ensures h'.elementsById[id] in h'.elements
        {
          assert h'.elementsById[id] != e;
          assert h'.elementsById[id] in multiset(h.elements);
        }
      }
      Ok(h')
  }

  /** Removing a reference that occurs once from a list of live references. */
  lemma RemoveRef(refs: seq<Handle>, a: Handle, n: nat)
    requires HandlesIn(refs, n) && Distinct(refs) && a in refs
    ensures HandlesIn(RemoveFirst(refs, a), n) && Distinct(RemoveFirst(refs, a))
    ensures a !in RemoveFirst(refs, a)
    ensures forall b :: b in refs && b != a ==> b in RemoveFirst(refs, a)
  {
    var r := RemoveFirst(refs, a);
    DistinctOccursOnce(refs, a);
    RemoveOnlyOccurrence(refs, a);
    RemoveKeepsDistinct(refs, a);
    forall j | 0 <= j < |r| ensures r[j] < n {
      assert r[j] in multiset(r);
    }
    forall b | b in refs && b != a ensures b in r {
      assert b in multiset(refs);
    }
  }

  /** deleteAlbum: resolve the title, remove that album object from the list and the
      lower-cased title from the index. */
  function DeleteAlbum(h: Hub, title: string): (r: Result<Hub, HubError>)
    requires Valid(h)
    ensures AlbumByTitle(h, title).Err? ==> r == Err(NoAlbumFound)
    ensures AlbumByTitle(h, title).Ok? ==> r.Ok?
    ensures r.Ok? ==>
      var a := AlbumRef(h, title).value;
      && Valid(r.value)
      && r.value.albumRefs == RemoveFirst(h.albumRefs, a)
      && a !in r.value.albumRefs
      && AlbumByTitle(r.value, title).Err?
  {
    match AlbumRef(h, title)
    case Err(err) => Err(err)
    case Ok(a) =>
      RemoveRef(h.albumRefs, a, |h.albumHeap|);
      Ok(h.(albumRefs := RemoveFirst(h.albumRefs, a), albumsByName := h.albumsByName - {Lower(title)}))
  }

  /** deletePlayList: as deleteAlbum, with the playlist list and index. */
  function DeletePlayList(h: Hub, title: string): (r: Result<Hub, HubError>)
    requires Valid(h)
    ensures PlaylistByTitle(h, title).Err? ==> r == Err(NoPlayListFound)
    ensures PlaylistByTitle(h, title).Ok? ==> r.Ok?
    ensures r.Ok? ==>
      var p := PlayListRef(h, title).value;
      && Valid(r.value)
      && r.value.playlistRefs == RemoveFirst(h.playlistRefs, p)
      && p !in r.value.playlistRefs
      && PlaylistByTitle(r.value, title).Err?
  {
    match PlayListRef(h, title)
    case Err(err) => Err(err)
    case Ok(p) =>
      RemoveRef(h.playlistRefs, p, |h.playlistHeap|);
      Ok(h.(playlistRefs := RemoveFirst(h.playlistRefs, p), playlistByName := h.playlistByName - {Lower(title)}))
  }

  /** addElementToAlbum: the album is resolved first, then the element, which must be
      a Song; its id is appended to that album object. */
  function AddElementToAlbum(h: Hub, elementTitle: string, albumTitle: string): (r: Result<Hub, HubError>)
    requires Valid(h)
    ensures AlbumByTitle(h, albumTitle).Err? ==> r == Err(NoAlbumFound)
    ensures AlbumByTitle(h, albumTitle).Ok? && ElementByTitle(h, elementTitle).Err? ==>
      r == Err(NoElementFound(UnknownTitle))
    ensures (AlbumByTitle(h, albumTitle).Ok? && ElementByTitle(h, elementTitle).Ok?
             && !ElementByTitle(h, elementTitle).value.Song?) ==> r == Err(NoElementFound(NotASong))
    ensures r.Ok? <==> AlbumByTitle(h, albumTitle).Ok? && ElementByTitle(h, elementTitle).Ok?
                       && ElementByTitle(h, elementTitle).value.Song?
    ensures r.Ok? ==>
      && Valid(r.value)
      && AlbumByTitle(r.value, albumTitle)
         == Ok(AddSong(AlbumByTitle(h, albumTitle).value, ElementByTitle(h, elementTitle).value.uuid))
  {
    match AlbumRef(h, albumTitle)
    case Err(err) => Err(err)
    case Ok(a) =>
      match ElementByTitle(h, elementTitle)
      case Err(err) => Err(err)
      case Ok(e) =>
        if !e.Song? then Err(NoElementFound(NotASong))
        else Ok(h.(albumHeap := h.albumHeap[a := AddSong(h.albumHeap[a], e.uuid)]))
  }

  /** addElementToPlayList: the playlist is resolved first, then the element, of any
      kind; its id is appended to that playlist object. */
  function AddElementToPlayList(h: Hub, elementTitle: string, playListTitle: string): (r: Result<Hub, HubError>)
    requires Valid(h)
    ensures PlaylistByTitle(h, playListTitle).Err? ==> r == Err(NoPlayListFound)
    ensures PlaylistByTitle(h, playListTitle).Ok? && ElementByTitle(h, elementTitle).Err? ==>
      r == Err(NoElementFound(UnknownTitle))
    ensures r.Ok? <==> PlaylistByTitle(h, playListTitle).Ok? && ElementByTitle(h, elementTitle).Ok?
    ensures r.Ok? ==>
      && Valid(r.value)
      && PlaylistByTitle(r.value, playListTitle)
         == Ok(PlayLists.AddElement(PlaylistByTitle(h, playListTitle).value, ElementByTitle(h, elementTitle).value.uuid))
  {
    match PlayListRef(h, playListTitle)
    case Err(err) => Err(err)
    case Ok(p) =>
      match ElementByTitle(h, elementTitle)
      case Err(err) => Err(err)
      case Ok(e) =>
        Ok(h.(playlistHeap := h.playlistHeap[p := PlayLists.AddElement(h.playlistHeap[p], e.uuid)]))
  }
}
