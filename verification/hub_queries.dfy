/**
 * The read-only projections of ServerMusicHub: kind filters, the three
 * comparators and the sorted queries, and the resolution of album and playlist
 * membership lists through the id index.
 */
module HubQueries {
  import opened Text
  import opened Enums
  import opened Failures
  import opened AudioElements
  import opened Albums
  import opened MusicHub
  import opened StableSort

  // ------------------------------------------------------------ kind filters

  /** The songs of es, in their order in es. */
  function SongsOf(es: seq<AudioElement>): (r: seq<SongElement>)
    ensures forall e :: e in r <==> e in es && e.Song?
    ensures |r| <= |es|
  {
    if |es| == 0 then []
    else if es[0].Song? then
      var s: SongElement := es[0];
      [s] + SongsOf(es[1..])
    else SongsOf(es[1..])
  }

  /** The audio books of es, in their order in es. */
  function BooksOf(es: seq<AudioElement>): (r: seq<BookElement>)
    ensures forall e :: e in r <==> e in es && e.AudioBook?
    ensures |r| <= |es|
  {
    if |es| == 0 then []
    else if es[0].AudioBook? then
      var b: BookElement := es[0];
      [b] + BooksOf(es[1..])
    else BooksOf(es[1..])
  }

  /** songs(): every Song of elements(), in list order. */
  function Songs(h: Hub): seq<SongElement>
  {
    SongsOf(h.elements)
  }

  /** audioBooks(): every AudioBook of elements(), in list order. */
  function AudioBooks(h: Hub): seq<BookElement>
  {
    BooksOf(h.elements)
  }

  /** Both filters keep list order: filtering a concatenation concatenates the filtered parts. */
  lemma {:induction false} FiltersDistribute(a: seq<AudioElement>, b: seq<AudioElement>)
    ensures SongsOf(a + b) == SongsOf(a) + SongsOf(b)
    ensures BooksOf(a + b) == BooksOf(a) + BooksOf(b)
    decreases |a|
  {
    if |a| == 0 {
      assert a + b == b;
    } else {
      assert (a + b)[0] == a[0];
      assert (a + b)[1..] == a[1..] + b;
      FiltersDistribute(a[1..], b);
    }
  }

  /** songs() and audioBooks() together account for every element exactly once. */
  lemma {:induction false} FiltersPartition(es: seq<AudioElement>)
    ensures |SongsOf(es)| + |BooksOf(es)| == |es|
    ensures forall e :: multiset(SongsOf(es))[e] + multiset(BooksOf(es))[e] == multiset(es)[e]
    decreases |es|
  {
    if |es| > 0 {
      FiltersPartition(es[1..]);
      assert es == [es[0]] + es[1..];
    }
  }

  // ------------------------------------------------------------- comparators

  /** SortByDate: Date.compareTo. */
  predicate DateLe(a: Album, b: Album)
  {
    a.date <= b.date
  }

  /** SortByAuthor: String.compareTo on the artists. */
  predicate AuthorLe(a: BookElement, b: BookElement)
  {
    StringLe(a.artist, b.artist)
  }

  /** SortByGenre, ordering genres by their declaration in Genre. */
  predicate GenreLe(a: SongElement, b: SongElement)
  {
    GenreOrdinal(a.genre) <= GenreOrdinal(b.genre)
  }

  lemma DateLeIsTotalPreorder()
    ensures TotalPreorder(DateLe)
  {
  }

  lemma GenreLeIsTotalPreorder()
    ensures TotalPreorder(GenreLe)
  {
  }

  lemma AuthorLeIsTotalPreorder()
    ensures TotalPreorder(AuthorLe)
  {
    forall a: BookElement, b: BookElement
      ensures AuthorLe(a, b) || AuthorLe(b, a)
    {
      StringLeTotal(a.artist, b.artist);
    }
    forall a: BookElement, b: BookElement, c: BookElement | AuthorLe(a, b) && AuthorLe(b, c)
      ensures AuthorLe(a, c)
    {
      StringLeTransitive(a.artist, b.artist, c.artist);
    }
  }

  // ---------------------------------------------------------- sorted queries

  /** getAlbumsSortedByDate: a stable sort of albums() by date, ascending. */
  function AlbumsSortedByDate(h: Hub): (r: seq<Album>)
    requires Valid(h)
    ensures multiset(r) == multiset(AllAlbums(h))
    ensures forall i, j :: 0 <= i < j < |r| ==> r[i].date <= r[j].date
    ensures StableWrt(DateLe, AllAlbums(h), r)
  {
    DateLeIsTotalPreorder();
    SortIsStable(DateLe, AllAlbums(h));
    Sort(DateLe, AllAlbums(h))
  }

  /** getAudiobooksSortedByAuthor: a stable sort of audioBooks() by artist. */
  function AudiobooksSortedByAuthor(h: Hub): (r: seq<BookElement>)
    ensures multiset(r) == multiset(AudioBooks(h))
    ensures forall i, j :: 0 <= i < j < |r| ==> StringLe(r[i].artist, r[j].artist)
    ensures StableWrt(AuthorLe, AudioBooks(h), r)
  {
    AuthorLeIsTotalPreorder();
    SortIsStable(AuthorLe, AudioBooks(h));
    Sort(AuthorLe, AudioBooks(h))
  }

  // ------------------------------------------------------ membership lists

  /** Whether id resolves, through the id index, to a Song. */
  predicate IsSongId(byId: map<Uuid, AudioElement>, id: Uuid)
  {
    id in byId && byId[id].Song?
  }

  predicate AllSongIds(byId: map<Uuid, AudioElement>, ids: seq<Uuid>)
  {
    forall i :: 0 <= i < |ids| ==> IsSongId(byId, ids[i])
  }

  /** The exception the resolution loop throws at an id that is not a known Song. */
  function SongFailure(byId: map<Uuid, AudioElement>, id: Uuid): HubError
  {
    if id !in byId then NoElementFound(UnknownId) else NoElementFound(NotASong)
  }

  /** The loop of getAlbumSongs: resolve each id in order through elementById and
      cast it to Song; the first id that is unknown or not a Song aborts the whole
      call with no partial result. */
  function ResolveSongs(byId: map<Uuid, AudioElement>, ids: seq<Uuid>): (r: Result<seq<SongElement>, HubError>)
    ensures r.Ok? <==> AllSongIds(byId, ids)
    ensures r.Ok? ==> |r.value| == |ids| && forall i :: 0 <= i < |ids| ==> r.value[i] == byId[ids[i]]
    ensures r.Err? ==> exists k :: 0 <= k < |ids| && AllSongIds(byId, ids[..k]) && !IsSongId(byId, ids[k])
                                   && r.error == SongFailure(byId, ids[k])
  {
    if |ids| == 0 then Ok([])
    else if !IsSongId(byId, ids[0]) then
      assert ids[..0] == [];
      Err(SongFailure(byId, ids[0]))
    else
      match ResolveSongs(byId, ids[1..])
      case Err(err) =>
        assert exists k :: 0 <= k < |ids| && AllSongIds(byId, ids[..k]) && !IsSongId(byId, ids[k])
                           && err == SongFailure(byId, ids[k]) by {
          var k :| 0 <= k < |ids[1..]| && AllSongIds(byId, ids[1..][..k]) && !IsSongId(byId, ids[1..][k])
                   && err == SongFailure(byId, ids[1..][k]);
          assert ids[..k + 1] == [ids[0]] + ids[1..][..k];
        }
        Err(err)
      case Ok(rest) =>
        var s: SongElement := byId[ids[0]];
        Ok([s] + rest)
  }

  /** Resolving one more id that names a Song extends a successful resolution by that Song. */
  lemma ResolveSongsSnoc(byId: map<Uuid, AudioElement>, ids: seq<Uuid>, id: Uuid)
    requires ResolveSongs(byId, ids).Ok? && IsSongId(byId, id)
    ensures ResolveSongs(byId, ids + [id]) == Ok(ResolveSongs(byId, ids).value + [byId[id]])
  {
    var ids' := ids + [id];
    assert AllSongIds(byId, ids') by {
      forall i | 0 <= i < |ids'| ensures IsSongId(byId, ids'[i]) {
        if i < |ids| { assert ids'[i] == ids[i]; }
      }
    }
    var r := ResolveSongs(byId, ids').value;
    assert r == ResolveSongs(byId, ids).value + [byId[id]] by {
      forall i | 0 <= i < |r| ensures r[i] == (ResolveSongs(byId, ids).value + [byId[id]])[i] {
        if i < |ids| { assert ids'[i] == ids[i]; }
      }
    }
  }

  predicate AllKnownIds(byId: map<Uuid, AudioElement>, ids: seq<Uuid>)
  {
    forall i :: 0 <= i < |ids| ==> ids[i] in byId
  }

  /** The loop of getPlaylistElements: resolve each id in order through elementById,
      any kind accepted; the first unknown id aborts the whole call. */
  function ResolveElements(byId: map<Uuid, AudioElement>, ids: seq<Uuid>): (r: Result<seq<AudioElement>, HubError>)
    ensures r.Ok? <==> AllKnownIds(byId, ids)
    ensures r.Ok? ==> |r.value| == |ids| && forall i :: 0 <= i < |ids| ==> r.value[i] == byId[ids[i]]
    ensures r.Err? ==> r.error == NoElementFound(UnknownId)
  {
    if |ids| == 0 then Ok([])
    else if ids[0] !in byId then Err(NoElementFound(UnknownId))
    else
      match ResolveElements(byId, ids[1..])
      case Err(err) => Err(err)
      case Ok(rest) => Ok([byId[ids[0]]] + rest)
  }

  /** Resolving one more known id extends a successful resolution by its element. */
  lemma ResolveElementsSnoc(byId: map<Uuid, AudioElement>, ids: seq<Uuid>, id: Uuid)
    requires ResolveElements(byId, ids).Ok? && id in byId
    ensures ResolveElements(byId, ids + [id]) == Ok(ResolveElements(byId, ids).value + [byId[id]])
  {
    var ids' := ids + [id];
    assert AllKnownIds(byId, ids') by {
      forall i | 0 <= i < |ids'| ensures ids'[i] in byId {
        if i < |ids| { assert ids'[i] == ids[i]; }
      }
    }
    var r := ResolveElements(byId, ids').value;
    assert r == ResolveElements(byId, ids).value + [byId[id]] by {
      forall i | 0 <= i < |r| ensures r[i] == (ResolveElements(byId, ids).value + [byId[id]])[i] {
        if i < |ids| { assert ids'[i] == ids[i]; }
      }
    }
  }

  /** getAlbumSongs: NoAlbumFound for an unknown album; otherwise the i-th result is
      the element with the album's i-th id, and the call fails as a whole if any id
      is unknown or names a non-Song. */
  function AlbumSongs(h: Hub, albumTitle: string): (r: Result<seq<SongElement>, HubError>)
    requires Valid(h)
    ensures AlbumByTitle(h, albumTitle).Err? ==> r == Err(NoAlbumFound)
    ensures AlbumByTitle(h, albumTitle).Ok? ==>
      var ids := AlbumByTitle(h, albumTitle).value.songs;
      && (r.Ok? <==> forall i :: 0 <= i < |ids| ==> ElementById(h, ids[i]).Ok? && ElementById(h, ids[i]).value.Song?)
      && (r.Ok? ==> |r.value| == |ids| && forall i :: 0 <= i < |ids| ==> ElementById(h, ids[i]) == Ok(r.value[i]))
      && (r.Err? ==> r.error == NoElementFound(UnknownId) || r.error == NoElementFound(NotASong))
  {
    match AlbumByTitle(h, albumTitle)
    case Err(err) => Err(err)
    case Ok(a) =>
      var r := ResolveSongs(h.elementsById, a.songs);
      assert r.Err? ==> r.error == NoElementFound(UnknownId) || r.error == NoElementFound(NotASong);
      r
  }

  /** getAlbumSongsSortedByGenre: getAlbumSongs, then a stable sort by genre
      declaration order. */
  function AlbumSongsSortedByGenre(h: Hub, albumTitle: string): (r: Result<seq<SongElement>, HubError>)
    requires Valid(h)
    ensures AlbumSongs(h, albumTitle).Err? ==> r == AlbumSongs(h, albumTitle)
    ensures AlbumSongs(h, albumTitle).Ok? ==>
      var songs := AlbumSongs(h, albumTitle).value;
      && r.Ok?
      && multiset(r.value) == multiset(songs)
      && (forall i, j :: 0 <= i < j < |r.value| ==> GenreOrdinal(r.value[i].genre) <= GenreOrdinal(r.value[j].genre))
      && StableWrt(GenreLe, songs, r.value)
  {
    match AlbumSongs(h, albumTitle)
    case Err(err) => Err(err)
    case Ok(songs) =>
      GenreLeIsTotalPreorder();
      SortIsStable(GenreLe, songs);
      Ok(Sort(GenreLe, songs))
  }

  /** getPlaylistElements: NoPlayListFound for an unknown playlist; otherwise the
      i-th result is the element with the playlist's i-th id, of any kind, and the
      call fails as a whole if any id is unknown. */
  function PlaylistElements(h: Hub, playListTitle: string): (r: Result<seq<AudioElement>, HubError>)
    requires Valid(h)
    ensures PlaylistByTitle(h, playListTitle).Err? ==> r == Err(NoPlayListFound)
    ensures PlaylistByTitle(h, playListTitle).Ok? ==>
      var ids := PlaylistByTitle(h, playListTitle).value.elements;
      && (r.Ok? <==> forall i :: 0 <= i < |ids| ==> ElementById(h, ids[i]).Ok?)
      && (r.Ok? ==> |r.value| == |ids| && forall i :: 0 <= i < |ids| ==> ElementById(h, ids[i]) == Ok(r.value[i]))
      && (r.Err? ==> r.error == NoElementFound(UnknownId))
  {
    match PlaylistByTitle(h, playListTitle)
    case Err(err) => Err(err)
    case Ok(p) => ResolveElements(h.elementsById, p.elements)
  }
}
