/**
 * The fixture of the ServerMusicHub unit tests, and the outcomes those tests
 * expect, derived from the model.
 */
module HubScenarios {
  import opened Text
  import opened Enums
  import opened Failures
  import opened AudioElements
  import opened Albums
  import PlayLists
  import opened MusicHub
  import opened HubQueries
  import opened StableSort

  const sg1: SongElement := Song("Song1", "Artist1", 120, 1, "unknownFile1", POP)
  const sg2: SongElement := Song("Song2", "Artist1", 130, 2, "unknownFile2", ROCK)
  const sg3: SongElement := Song("Song3", "Artist2", 340, 3, "unknownFile3", CLASSIC)
  const b1: BookElement := AudioBook("Book1", "ZArtist3", 293, 4, "unknownFile4", GERMAN, SPEECH)
  const b2: BookElement := AudioBook("Book2", "Artist4", 203, 5, "unknownFile5", FRENCH, NOVEL)

  /** Album1 holds Song1 and Song2, Album2 holds Song3; Album2 is the older. */
  const alb1: Album := AddSongs(NewAlbum("Album1", "Artist1", 250, 2000, 10), [1, 2])
  const alb2: Album := AddSong(NewAlbum("Album2", "Artist2", 340, 1000, 11), 3)

  /** Sorting two elements the comparator puts in the other order swaps them. */
  lemma SortPairSwaps<T(!new)>(le: (T, T) -> bool, x: T, y: T)
    requires !le(x, y)
    ensures Sort(le, [x, y]) == [y, x]
  {
    assert [x, y][1..] == [y];
    assert [y][1..] == [];
    assert Sort(le, [y]) == [y];
    assert Insert(le, x, [y]) == [y] + Insert(le, x, []);
  }

  /** getAlbumSongsSortedByGenre on Album1: ROCK is declared before POP, so Song2
      comes before Song1. */
  lemma GenreSortExample()
    ensures Sort(GenreLe, [sg1, sg2]) == [sg2, sg1]
  {
    assert !GenreLe(sg1, sg2);
    SortPairSwaps(GenreLe, sg1, sg2);
  }

  /** getAudiobooksSortedByAuthor: "Artist4" sorts before "ZArtist3". */
  lemma AuthorSortExample()
    ensures Sort(AuthorLe, [b1, b2]) == [b2, b1]
  {
    assert !StringLe(b1.artist, b2.artist);
    SortPairSwaps(AuthorLe, b1, b2);
  }

  /** getAlbumsSortedByDate: Album2 is older than Album1. */
  lemma DateSortExample()
    ensures Sort(DateLe, [alb1, alb2]) == [alb2, alb1]
  {
    assert alb1.date == 2000 && alb2.date == 1000;
    SortPairSwaps(DateLe, alb1, alb2);
  }

  /** Album1 lists the ids of Song1 and Song2, in that order. */
  lemma Album1Songs()
    ensures alb1.songs == [sg1.uuid, sg2.uuid]
  {
    assert NewAlbum("Album1", "Artist1", 250, 2000, 10).songs == [];
  }

  /** Album1's songs resolve in album order in any hub where its ids name the two
      songs. */
  lemma AlbumSongsExample(h: Hub)
    requires Valid(h) && AlbumByTitle(h, "Album1") == Ok(alb1)
    requires ElementById(h, 1) == Ok(sg1) && ElementById(h, 2) == Ok(sg2)
    ensures AlbumSongs(h, "Album1") == Ok([sg1, sg2])
  {
    Album1Songs();
    var m := h.elementsById;
    assert m[1] == sg1 && m[2] == sg2;
    assert AlbumSongs(h, "Album1") == ResolveSongs(m, [1, 2]);
    var none: seq<SongElement> := [];
    assert ResolveSongs(m, []) == Ok(none);
    ResolveSongsSnoc(m, [], 1);
    assert [] + [1] == [1] && none + [sg1] == [sg1];
    ResolveSongsSnoc(m, [1], 2);
    assert [1] + [2] == [1, 2] && [sg1] + [sg2] == [sg1, sg2];
  }

  /** ... and sorting them by genre gives Song2 then Song1. */
  lemma AlbumSongsSortedByGenreExample(h: Hub)
    requires Valid(h) && AlbumByTitle(h, "Album1") == Ok(alb1)
    requires ElementById(h, 1) == Ok(sg1) && ElementById(h, 2) == Ok(sg2)
    ensures AlbumSongsSortedByGenre(h, "Album1") == Ok([sg2, sg1])
  {
    AlbumSongsExample(h);
    GenreSortExample();
  }

  /** An audio book cannot be added to an album: addElementToAlbum("Book1", "Album3")
      fails once both titles resolve. */
  lemma AddAudiobookToAlbumFails(h: Hub)
    requires Valid(h) && ElementByTitle(h, "Book1") == Ok(b1)
    ensures AddElementToAlbum(AddAlbum(h, NewAlbum("Album3", "ArtistX", 2031, 0, 12)), "Book1", "Album3")
            == Err(NoElementFound(NotASong))
  {
    var a := NewAlbum("Album3", "ArtistX", 2031, 0, 12);
    assert Lower("Album3") == Lower(a.title);
  }

  /** An album that lists an audio book's id makes getAlbumSongs fail. */
  lemma AlbumSongsFailIfBook(h: Hub)
    requires Valid(h) && ElementById(h, 4) == Ok(b1)
    ensures AlbumSongs(AddAlbum(h, AddSong(NewAlbum("testAlb", "Artist10", 100, 0, 13), 4)), "testAlb")
            == Err(NoElementFound(NotASong))
  {
    var a := AddSong(NewAlbum("testAlb", "Artist10", 100, 0, 13), 4);
    assert a.songs == [4];
    assert Lower("testAlb") == Lower(a.title);
  }
}
