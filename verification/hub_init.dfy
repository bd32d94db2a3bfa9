/**
 * initializeOptimizationStructures: after the three lists are unmarshalled,
 * the four indices are rebuilt by putting every entry of each list, in list
 * order, under its key, so that the last entry with a given key wins.
 */
module HubInit {
  import opened Text
  import opened AudioElements
  import opened Albums
  import PlayLists
  import opened Seqs
  import opened MusicHub

  function ElementTitleKey(e: AudioElement): string { Lower(e.title) }

  function ElementIdKey(e: AudioElement): Uuid { e.uuid }

  function AlbumTitleKey(a: Album): string { Lower(a.title) }

  function PlayListTitleKey(p: PlayList): string { Lower(p.title) }

  /** Fresh references 0 .. n-1 for n unmarshalled objects. */
  function Range(n: nat): (r: seq<Handle>)
    ensures |r| == n && forall i :: 0 <= i < n ==> r[i] == i
  {
    seq(n, i => i)
  }

  /** The element index that put(key(v), v) for every v of es, in order, builds. */
  function ElementIndex<K(!new)>(es: seq<AudioElement>, key: AudioElement -> K): (m: map<K, AudioElement>)
    ensures forall k :: k in m <==> exists i :: 0 <= i < |es| && key(es[i]) == k
    ensures forall k :: k in m ==> exists j :: 0 <= j < |es| && m[k] == es[j] && key(es[j]) == k
                                              && forall i :: j < i < |es| ==> key(es[i]) != k
  {
    Through(LastPositions(es, key), es)
  }

  /** The entries of es at the positions pos names. */
  function Through<K, V>(pos: map<K, nat>, es: seq<V>): map<K, V>
    requires forall k :: k in pos ==> pos[k] < |es|
  {
    map k | k in pos :: es[pos[k]]
  }

  /** Putting one more key at the new last position extends the entry map by that entry. */
  lemma ThroughSnoc<K, V>(pos: map<K, nat>, es: seq<V>, k0: K, e: V)
    requires forall k :: k in pos ==> pos[k] < |es|
    ensures Through(pos[k0 := |es|], es + [e]) == Through(pos, es)[k0 := e]
  {
    var a, b := Through(pos[k0 := |es|], es + [e]), Through(pos, es)[k0 := e];
    assert a.Keys == b.Keys;
    forall k | k in a ensures a[k] == b[k] {
      if k != k0 {
        assert (es + [e])[pos[k]] == es[pos[k]];
      }
    }
  }

  lemma RangeHandles(n: nat)
    ensures HandlesIn(Range(n), n) && Distinct(Range(n))
    ensures forall j :: 0 <= j < n ==> j in Range(n)
  {
    forall j | 0 <= j < n ensures j in Range(n) {
      assert Range(n)[j] == j;
    }
  }

  lemma ElementIndexValues<K(!new)>(es: seq<AudioElement>, key: AudioElement -> K)
    ensures forall k :: k in ElementIndex(es, key) ==>
              ElementIndex(es, key)[k] in es && key(ElementIndex(es, key)[k]) == k
  {
  }

  /** The hub that load() returns: the unmarshalled lists and the rebuilt indices. */
  function Initialize(elements: seq<AudioElement>, albums: seq<Album>, playlists: seq<PlayList>): (h: Hub)
    ensures Valid(h)
    ensures h.elements == elements && AllAlbums(h) == albums && AllPlaylists(h) == playlists
  {
    var h := Hub(elements, Range(|albums|), Range(|playlists|), albums, playlists,
                 ElementIndex(elements, ElementIdKey), ElementIndex(elements, ElementTitleKey),
                 LastPositions(albums, AlbumTitleKey), LastPositions(playlists, PlayListTitleKey));
    ElementIndexValues(elements, ElementIdKey);
    ElementIndexValues(elements, ElementTitleKey);
    RangeHandles(|albums|);
    RangeHandles(|playlists|);
    assert ElementIndexesValid(h);
    assert AlbumIndexValid(h);
    assert PlayListIndexValid(h);
    assert AllAlbums(h) == albums;
    assert AllPlaylists(h) == playlists;
    h
  }

  /** After initialisation every element is reachable by the lower-cased title of
      some list entry and only by those; the entry found is the last one with that
      title. */
  lemma InitializeElementByTitle(elements: seq<AudioElement>, albums: seq<Album>, playlists: seq<PlayList>,
                                 t: string)
    ensures var r := ElementByTitle(Initialize(elements, albums, playlists), t);
            && (r.Ok? <==> exists i :: 0 <= i < |elements| && Lower(elements[i].title) == Lower(t))
            && (r.Ok? ==> exists j :: 0 <= j < |elements| && r.value == elements[j]
                                      && Lower(elements[j].title) == Lower(t)
                                      && forall i :: j < i < |elements| ==> Lower(elements[i].title) != Lower(t))
  {
    var h := Initialize(elements, albums, playlists);
    var k := Lower(t);
    if k in h.elementsByName {
      var j :| 0 <= j < |elements| && h.elementsByName[k] == elements[j] && ElementTitleKey(elements[j]) == k
               && forall i :: j < i < |elements| ==> ElementTitleKey(elements[i]) != k;
      assert forall i :: j < i < |elements| ==> Lower(elements[i].title) != k by {
        forall i | j < i < |elements| ensures Lower(elements[i].title) != k {
          assert ElementTitleKey(elements[i]) != k;
        }
      }
    } else {
      forall i | 0 <= i < |elements| ensures Lower(elements[i].title) != k {
        assert ElementTitleKey(elements[i]) != k;
      }
    }
  }

  /** After initialisation exactly the ids in the list resolve, each to the last
      entry carrying it. */
  lemma InitializeElementById(elements: seq<AudioElement>, albums: seq<Album>, playlists: seq<PlayList>,
                              id: Uuid)
    ensures var r := ElementById(Initialize(elements, albums, playlists), id);
            && (r.Ok? <==> exists i :: 0 <= i < |elements| && elements[i].uuid == id)
            && (r.Ok? ==> exists j :: 0 <= j < |elements| && r.value == elements[j]
                                      && forall i :: j < i < |elements| ==> elements[i].uuid != id)
  {
    var h := Initialize(elements, albums, playlists);
    if id in h.elementsById {
      var j :| 0 <= j < |elements| && h.elementsById[id] == elements[j] && ElementIdKey(elements[j]) == id
               && forall i :: j < i < |elements| ==> ElementIdKey(elements[i]) != id;
      forall i | j < i < |elements| ensures elements[i].uuid != id {
        assert ElementIdKey(elements[i]) != id;
      }
    } else {
      forall i | 0 <= i < |elements| ensures elements[i].uuid != id {
        assert ElementIdKey(elements[i]) != id;
      }
    }
  }

  /** After initialisation an album title resolves iff some album carries it, and
      then to the last album with that lower-cased title. */
  lemma InitializeAlbumByTitle(elements: seq<AudioElement>, albums: seq<Album>, playlists: seq<PlayList>,
                               t: string)
    ensures var r := AlbumByTitle(Initialize(elements, albums, playlists), t);
            && (r.Ok? <==> exists i :: 0 <= i < |albums| && Lower(albums[i].title) == Lower(t))
            && (r.Ok? ==> exists j :: 0 <= j < |albums| && r.value == albums[j]
                                      && forall i :: j < i < |albums| ==> Lower(albums[i].title) != Lower(t))
  {
    var h := Initialize(elements, albums, playlists);
    var k := Lower(t);
    if k in h.albumsByName {
      var j := h.albumsByName[k];
      forall i | j < i < |albums| ensures Lower(albums[i].title) != k {
        assert AlbumTitleKey(albums[i]) != k;
      }
    } else {
      forall i | 0 <= i < |albums| ensures Lower(albums[i].title) != k {
        assert AlbumTitleKey(albums[i]) != k;
      }
    }
  }

  /** After initialisation a playlist title resolves iff some playlist carries it,
      and then to the last playlist with that lower-cased title. */
  lemma InitializePlaylistByTitle(elements: seq<AudioElement>, albums: seq<Album>, playlists: seq<PlayList>,
                                  t: string)
    ensures var r := PlaylistByTitle(Initialize(elements, albums, playlists), t);
            && (r.Ok? <==> exists i :: 0 <= i < |playlists| && Lower(playlists[i].title) == Lower(t))
            && (r.Ok? ==> exists j :: 0 <= j < |playlists| && r.value == playlists[j]
                                      && forall i :: j < i < |playlists| ==> Lower(playlists[i].title) != Lower(t))
  {
    var h := Initialize(elements, albums, playlists);
    var k := Lower(t);
    if k in h.playlistByName {
      var j := h.playlistByName[k];
      forall i | j < i < |playlists| ensures Lower(playlists[i].title) != k {
        assert PlayListTitleKey(playlists[i]) != k;
      }
    } else {
      forall i | 0 <= i < |playlists| ensures Lower(playlists[i].title) != k {
        assert PlayListTitleKey(playlists[i]) != k;
      }
    }
  }

  /** The constructor's empty hub is the initialisation of three empty lists. */
  lemma InitializeEmpty()
    ensures Initialize([], [], []) == Empty()
  {
    assert Range(0) == [];
  }

  lemma LastPositionsSnoc<T, K(!new)>(s: seq<T>, x: T, key: T -> K)
    ensures LastPositions(s + [x], key) == LastPositions(s, key)[key(x) := |s|]
  {
    assert (s + [x])[..|s|] == s;
  }

  lemma ElementIndexSnoc<K(!new)>(es: seq<AudioElement>, e: AudioElement, key: AudioElement -> K)
    ensures ElementIndex(es + [e], key) == ElementIndex(es, key)[key(e) := e]
  {
    LastPositionsSnoc(es, e, key);
    ThroughSnoc(LastPositions(es, key), es, key(e), e);
  }

  /** Loading a saved list with one more element gives the hub that addElement
      builds from the hub loaded without it: the index rebuild and the index
      upkeep of addElement agree. */
  lemma InitializeThenAddElement(elements: seq<AudioElement>, albums: seq<Album>, playlists: seq<PlayList>,
                                 e: AudioElement)
    ensures AddElement(Initialize(elements, albums, playlists), e) == Initialize(elements + [e], albums, playlists)
  {
    ElementIndexSnoc(elements, e, ElementIdKey);
    ElementIndexSnoc(elements, e, ElementTitleKey);
  }

  /** As InitializeThenAddElement, for addAlbum: the new album object takes the next
      reference. */
  lemma InitializeThenAddAlbum(elements: seq<AudioElement>, albums: seq<Album>, playlists: seq<PlayList>,
                               a: Album)
    ensures AddAlbum(Initialize(elements, albums, playlists), a) == Initialize(elements, albums + [a], playlists)
  {
    LastPositionsSnoc(albums, a, AlbumTitleKey);
    assert Range(|albums|) + [|albums|] == Range(|albums| + 1);
  }

  /** As InitializeThenAddElement, for addPlaylist. */
  lemma InitializeThenAddPlaylist(elements: seq<AudioElement>, albums: seq<Album>, playlists: seq<PlayList>,
                                  p: PlayList)
    ensures AddPlaylist(Initialize(elements, albums, playlists), p) == Initialize(elements, albums, playlists + [p])
  {
    LastPositionsSnoc(playlists, p, PlayListTitleKey);
    assert Range(|playlists|) + [|playlists|] == Range(|playlists| + 1);
  }
}
