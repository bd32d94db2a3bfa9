# MusicHub catalog in Dafny

A model of the music catalog of MusicHub's server, `ServerMusicHub`, with the
entities it manipulates and the `TableFormatter` that the terminals use to
print listings.

The catalog keeps three lists in insertion order (audio elements, albums,
playlists). Beside them it keeps four indices: element by UUID, element by
lower-cased title, album by lower-cased title, and playlist by lower-cased
title. The model is a `Hub` record of sequences and maps with a validity
invariant, `MusicHub.Valid`. Every index entry `k -> v` names an entry of the
matching list, and `k` is `v`'s lower-cased title (or its UUID). Every
operation preserves the invariant. Titles need not be unique: a later `put`
under the same key shadows an earlier entry, which stays in the list. So the
converse, "every list entry is findable by title", is deliberately not part
of the invariant.

Albums and playlists are mutable Java objects that the list and the index
share by reference. Neither class overrides `equals`, so `List.remove` works
by identity. The model keeps every album (resp. playlist) object in an
append-only heap and stores its position, a handle, in the list and the index.
`addElementToAlbum` updates the heap entry, and every view of that album sees
the change. The hub itself never mutates an audio element, so elements are
stored as values.

The three exception classes become one error type, `Failures.HubError`, carried
by `Result`. A mutation that throws returns `Err`, and its caller keeps the old
state. This matches the source, which checks before it mutates. The Java sorts
(`Arrays.sort` on objects and `Stream.sorted` are stable) are modelled by one
stable insertion sort over a comparator, `StableSort.Sort`.

Modules, one per file:
- `Text`, `Failures`, `Enums`, `Seqs`: ASCII case, decimal printing, `String.compareTo`, the errors, the three enumerations, and list helpers.
- `AudioElements`, `Albums`, `PlayLists`: the entities.
- `StableSort`: the stable sort and its proofs.
- `MusicHub`: the state, lookups and mutations.
- `HubQueries`: the kind filters, comparators, sorted queries and membership resolution.
- `HubProperties`: frame and interaction lemmas.
- `HubInit`: `initializeOptimizationStructures`.
- `HubScenarios`: the unit tests' expectations.
- `TableFormatter`: the table printer.

Where the sources disagree with each other, the model follows the code of
`ServerMusicHub` and the entity classes, and uses the tests' intent where the
code cannot decide:
- `ServerMusicHub` calls `getUuid()`, but `AudioElement` defines `getUUID()`. Both are read as the element's UUID.
- `Song.getGenre()` calls a `Genre.getGenre()` that does not exist. `Song.toString` is modelled with the genre's lower-case name (`Genre.toString`).
- `SortByGenre` is modelled by declaration order, which the genre-sort test expects (ROCK before POP). Comparing the names as strings would put "pop" first.
- The tests build songs and books from enum constants and albums from a `Date`, while the constructors take strings. The model takes the parsed values: a `Date` is an `int` instant.
- `AlbumTest` calls `getArtist` and `getLengthInSeconds`, which `Album` does not define. It also expects an `AssertionError` for a negative length, which `Album` never raises. The model follows `Album` and accepts any length.

## Model

| member | source | states |
|---|---|---|
| Text.LowerIdempotent | server/src/main/java/musichub/server/ServerMusicHub.java:263 | a lower-cased key is already lower-case, so looking up a stored key again finds the same entry |
| Text.IntToStringRoundTrip | common/src/main/java/musichub/business/AudioElement.java:53 | the decimal text printed for a length reads back as that length, negative lengths included |
| Text.IntToString | common/src/main/java/musichub/business/AudioElement.java:53 | an int prints as a canonical decimal: digits without a leading zero, preceded by a minus sign exactly when the int is negative, never "-" or "-0" |
| Text.IntToStringUnique | common/src/main/java/musichub/business/AudioElement.java:53 | a canonical decimal is the printed form of the int it denotes, so no other text ("07", "-0", "-") can stand for a length |
| Text.StringLeTotal | server/src/main/java/musichub/server/ServerMusicHub.java:36-41 | any two artist strings are comparable under String.compareTo |
| Text.StringLeTransitive | server/src/main/java/musichub/server/ServerMusicHub.java:36-41 | String.compareTo ordering is transitive, as the Comparator contract of SortByAuthor needs |
| Text.StringLeAntisymmetric | server/src/main/java/musichub/server/ServerMusicHub.java:36-41 | two strings that compare both ways are equal |
| Enums.GenreOrdinalInjective | common/src/main/java/musichub/business/Genre.java:6-13 | each genre has its own declaration position, JAZZ first and METAL last of seven |
| Enums.NamesInjective | common/src/main/java/musichub/business/Genre.java:15-18 | distinct constants print distinct lower-case names, for all three enumerations |
| AudioElements.ParseGenre | common/src/main/java/musichub/business/Song.java:25-47 | setGenre never yields METAL; any result other than JAZZ is the genre whose name equals the lower-cased input; every other name maps to its own constant |
| AudioElements.ParseLanguage | common/src/main/java/musichub/business/AudioBook.java:35-55 | setLanguage is case-insensitive; a result other than ENGLISH matches the input's name, and any unlisted input gives ENGLISH |
| AudioElements.ParseCategory | common/src/main/java/musichub/business/AudioBook.java:57-76 | setCategory is case-insensitive; a result other than YOUTH matches the input's name, and any unlisted input gives YOUTH |
| AudioElements.GenreNameRoundTrip | common/src/main/java/musichub/business/Song.java:25-47 | a genre's name in any letter case parses back to that genre, except that "metal" falls to JAZZ |
| AudioElements.LanguageAndCategoryReachable | common/src/main/java/musichub/business/AudioBook.java:35-76 | every Language and every Category constant is produced by its own name |
| AudioElements.NewSong | common/src/main/java/musichub/business/Song.java:15-23 | both Song constructors store the five common fields unchanged and then parse the genre string |
| AudioElements.NewAudioBook | common/src/main/java/musichub/business/AudioBook.java:16-25 | both AudioBook constructors store the common fields and then parse language and category |
| AudioElements.SongConstructorRoundTrip | common/src/main/java/musichub/business/Song.java:15-47 | rebuilding a song from its fields and its genre's name gives it back, METAL becoming JAZZ |
| AudioElements.AudioBookConstructorRoundTrip | common/src/main/java/musichub/business/AudioBook.java:16-76 | rebuilding an audio book from its fields and the names of its language and category gives it back |
| AudioElements.SetGenre | common/src/main/java/musichub/business/Song.java:25-47 | setGenre on an existing song changes the genre and nothing else |
| AudioElements.SetLanguage | common/src/main/java/musichub/business/AudioBook.java:35-55 | setLanguage leaves the category and every other field unchanged |
| AudioElements.SetCategory | common/src/main/java/musichub/business/AudioBook.java:57-76 | setCategory leaves the language and every other field unchanged |
| AudioElements.ElementString | common/src/main/java/musichub/business/AudioElement.java:52-54 | toString is "Title = ", the title, ", Artist = ", the artist, ", Length = ", the length printed as Integer.toString prints it (a canonical decimal that reads back as the length), ", Content = ", the content |
| AudioElements.KindSuffix | common/src/main/java/musichub/business/AudioBook.java:78-80 | a Song appends ", Genre = " and its genre's name, an AudioBook appends ", Language = ", the language, ", Category = ", the category; both end with a line break |
| AudioElements.KindSuffixDetermines | common/src/main/java/musichub/business/Song.java:53-55 | the appended text identifies the kind, and the genre or the language and category: elements with equal suffixes agree on them |
| AudioElements.ToString | common/src/main/java/musichub/business/Song.java:53-55 | the runtime toString is AudioElement.toString followed by ", Genre = " and the genre for a Song, or by ", Language = ", the language, ", Category = " and the category for an AudioBook, then a line break |
| Albums.NewAlbumWithSongs | common/src/main/java/musichub/business/Album.java:38-49 | the full constructor keeps the given id and song list as supplied |
| Albums.NewAlbum | common/src/main/java/musichub/business/Album.java:51-62 | a newly built album has the given title, artist, length and date, a fresh id and no songs |
| Albums.DefaultAlbum | common/src/main/java/musichub/business/Album.java:64-70 | the no-argument album has empty title and artist, the current instant and no songs |
| Albums.AddSong | common/src/main/java/musichub/business/Album.java:72-75 | addSong puts exactly one id at the end, keeps the earlier ids, does not de-duplicate, and leaves title and date alone |
| Albums.AddSongsInOrder | common/src/main/java/musichub/business/Album.java:72-80 | successive addSong calls list the ids after the existing ones in call order |
| Albums.SongsRandomly | common/src/main/java/musichub/business/Album.java:82-86 | getSongsRandomly returns a permutation of the song ids, whatever the random draws |
| PlayLists.NewPlayListWithElements | common/src/main/java/musichub/business/PlayList.java:14-18 | the full constructor keeps the given id and element list |
| PlayLists.NewPlayList | common/src/main/java/musichub/business/PlayList.java:20-24 | PlayList(title) starts with no elements |
| PlayLists.DefaultPlayList | common/src/main/java/musichub/business/PlayList.java:26-28 | the no-argument playlist is PlayList("") |
| PlayLists.AddElement | common/src/main/java/musichub/business/PlayList.java:30-33 | addElement puts exactly one id at the end, with no duplicate or kind check, and keeps the title |
| StableSort.Sort | server/src/main/java/musichub/server/ServerMusicHub.java:199-205 | sorting yields a permutation of the input, in order whenever the comparator is a total preorder |
| StableSort.SortIsStable | server/src/main/java/musichub/server/ServerMusicHub.java:199-212 | elements that compare equal keep their input order |
| Seqs.RemoveFirst | server/src/main/java/musichub/server/ServerMusicHub.java:156 | List.remove drops the first occurrence and keeps the rest in order, or changes nothing when the entry is absent |
| Seqs.RemoveKeepsDistinct | server/src/main/java/musichub/server/ServerMusicHub.java:148 | removing from a list of distinct references leaves it without duplicates |
| Seqs.LastPositions | server/src/main/java/musichub/server/ServerMusicHub.java:107-116 | putting every list entry under its key, in order, indexes exactly the keys present, each at its last occurrence |
| MusicHub.AllAlbums | server/src/main/java/musichub/server/ServerMusicHub.java:162-165 | albums() lists the album objects in list order |
| MusicHub.AllPlaylists | server/src/main/java/musichub/server/ServerMusicHub.java:167-170 | playlists() lists the playlist objects in list order |
| MusicHub.ElementByTitle | server/src/main/java/musichub/server/ServerMusicHub.java:261-270 | elementByTitle succeeds exactly when the lower-cased title is indexed, returns a listed element with that lower-cased title, and otherwise fails with NoElementFound |
| MusicHub.ElementById | server/src/main/java/musichub/server/ServerMusicHub.java:272-280 | elementById succeeds exactly for indexed ids and returns a listed element carrying that id |
| MusicHub.AlbumByTitle | server/src/main/java/musichub/server/ServerMusicHub.java:239-248 | albumByTitle returns a listed album whose lower-cased title matches, or fails with NoAlbumFound |
| MusicHub.PlaylistByTitle | server/src/main/java/musichub/server/ServerMusicHub.java:250-259 | playlistByTitle returns a listed playlist whose lower-cased title matches, or fails with NoPlayListFound |
| MusicHub.Empty | server/src/main/java/musichub/server/ServerMusicHub.java:101-105 | the new hub is consistent, holds nothing and every lookup fails |
| MusicHub.AddElement | server/src/main/java/musichub/server/ServerMusicHub.java:118-123 | addElement keeps the hub consistent, appends the element, makes it the answer for its id and for every case variant of its title, and changes no other element lookup |
| MusicHub.AddAlbum | server/src/main/java/musichub/server/ServerMusicHub.java:125-129 | addAlbum keeps the hub consistent, appends the album, makes it the answer for every case variant of its title, and changes no other album title |
| MusicHub.AddPlaylist | server/src/main/java/musichub/server/ServerMusicHub.java:131-135 | addPlaylist keeps the hub consistent, appends the playlist, makes it the answer for its title in any case, and changes no other playlist title |
| MusicHub.DeleteElement | server/src/main/java/musichub/server/ServerMusicHub.java:153-160 | deleteElement of an unknown title fails with NoElementFound; otherwise the hub stays consistent, the first occurrence of the resolved element leaves the list and neither its title nor its id resolves any more |
| MusicHub.DeleteAlbum | server/src/main/java/musichub/server/ServerMusicHub.java:145-151 | deleteAlbum of an unknown title fails with NoAlbumFound; otherwise the resolved album object leaves the list and its title no longer resolves |
| MusicHub.DeletePlayList | server/src/main/java/musichub/server/ServerMusicHub.java:137-143 | deletePlayList of an unknown title fails with NoPlayListFound; otherwise the resolved playlist leaves the list and its title no longer resolves |
| MusicHub.AddElementToAlbum | server/src/main/java/musichub/server/ServerMusicHub.java:282-293 | the album is checked first, then the element, then that it is a Song; it succeeds exactly when all three pass, and then the album found under that title is the old one with the song's id appended |
| MusicHub.AddElementToPlayList | server/src/main/java/musichub/server/ServerMusicHub.java:295-303 | the playlist is checked first, then the element of any kind; on success the playlist found under that title has the element's id appended |
| HubQueries.SongsOf | server/src/main/java/musichub/server/ServerMusicHub.java:177-186 | songs() holds exactly the Song entries of elements() |
| HubQueries.BooksOf | server/src/main/java/musichub/server/ServerMusicHub.java:188-197 | audioBooks() holds exactly the AudioBook entries of elements() |
| HubQueries.FiltersDistribute | server/src/main/java/musichub/server/ServerMusicHub.java:177-197 | both filters preserve list order: filtering a concatenation concatenates the filtered parts |
| HubQueries.FiltersPartition | server/src/main/java/musichub/server/ServerMusicHub.java:177-197 | songs() and audioBooks() together account for every element exactly once |
| HubQueries.DateLeIsTotalPreorder | server/src/main/java/musichub/server/ServerMusicHub.java:22-27 | SortByDate is a valid comparator |
| HubQueries.GenreLeIsTotalPreorder | server/src/main/java/musichub/server/ServerMusicHub.java:29-34 | SortByGenre, by declaration order, is a valid comparator |
| HubQueries.AuthorLeIsTotalPreorder | server/src/main/java/musichub/server/ServerMusicHub.java:36-41 | SortByAuthor is a valid comparator |
| HubQueries.AlbumsSortedByDate | server/src/main/java/musichub/server/ServerMusicHub.java:199-205 | getAlbumsSortedByDate is a permutation of albums(), oldest first, stable among equal dates |
| HubQueries.AudiobooksSortedByAuthor | server/src/main/java/musichub/server/ServerMusicHub.java:207-212 | getAudiobooksSortedByAuthor is a permutation of audioBooks(), ascending by artist, stable among equal artists |
| HubQueries.ResolveSongs | server/src/main/java/musichub/server/ServerMusicHub.java:217-228 | resolution succeeds exactly when every id names a Song, and then result i is the element of id i; otherwise the error names the first failing id's reason (unknown id or not a song) |
| HubQueries.ResolveSongsSnoc | server/src/main/java/musichub/server/ServerMusicHub.java:219-226 | resolving one more song id extends the resolution by that song |
| HubQueries.ResolveElements | server/src/main/java/musichub/server/ServerMusicHub.java:308-315 | resolution succeeds exactly when every id is known, and then result i is the element of id i |
| HubQueries.ResolveElementsSnoc | server/src/main/java/musichub/server/ServerMusicHub.java:310-313 | resolving one more known id extends the resolution by that element |
| HubQueries.AlbumSongs | server/src/main/java/musichub/server/ServerMusicHub.java:214-229 | getAlbumSongs fails with NoAlbumFound for an unknown album; otherwise it succeeds exactly when every listed id resolves to a Song, result i being the element of the album's i-th id, and fails as a whole otherwise |
| HubQueries.AlbumSongsSortedByGenre | server/src/main/java/musichub/server/ServerMusicHub.java:231-237 | getAlbumSongsSortedByGenre propagates getAlbumSongs' failure, and otherwise returns a permutation of its songs in genre declaration order, stable among equal genres |
| HubQueries.PlaylistElements | server/src/main/java/musichub/server/ServerMusicHub.java:305-316 | getPlaylistElements fails with NoPlayListFound for an unknown playlist; otherwise it succeeds exactly when every id resolves, result i being the element of the i-th id |
| HubProperties.AddElementFrame | server/src/main/java/musichub/server/ServerMusicHub.java:118-123 | addElement leaves albums, playlists and their lookups unchanged |
| HubProperties.AddAlbumFrame | server/src/main/java/musichub/server/ServerMusicHub.java:125-129 | addAlbum leaves elements, playlists and their lookups unchanged |
| HubProperties.AddPlaylistFrame | server/src/main/java/musichub/server/ServerMusicHub.java:131-135 | addPlaylist leaves elements, albums and their lookups unchanged |
| HubProperties.DeleteElementFrame | server/src/main/java/musichub/server/ServerMusicHub.java:153-160 | deleteElement changes no other title or id lookup and no album or playlist |
| HubProperties.DeleteAlbumRemovesOne | server/src/main/java/musichub/server/ServerMusicHub.java:145-151 | deleteAlbum removes exactly the resolved album from albums(), the others keeping their order |
| HubProperties.DeleteAlbumFrame | server/src/main/java/musichub/server/ServerMusicHub.java:145-151 | deleteAlbum changes no other album title, element or playlist |
| HubProperties.DeletePlayListRemovesOne | server/src/main/java/musichub/server/ServerMusicHub.java:137-143 | deletePlayList removes exactly the resolved playlist from playlists(), the others keeping their order |
| HubProperties.DeletePlayListFrame | server/src/main/java/musichub/server/ServerMusicHub.java:137-143 | deletePlayList changes no other playlist title, element or album |
| HubProperties.DeleteThenAddElement | server/src/test/java/musichub/server/ServerMusicHubTest.java:176-181 | after deleteElement the title fails, and adding the element back makes title and id resolve to it again |
| HubProperties.DeleteThenAddAlbum | server/src/test/java/musichub/server/ServerMusicHubTest.java:168-173 | after deleteAlbum the title fails, and adding the same album back makes it resolve again |
| HubProperties.DeleteThenAddPlaylist | server/src/test/java/musichub/server/ServerMusicHubTest.java:160-165 | after deletePlayList the title fails, and adding the same playlist back makes it resolve again |
| HubProperties.AddElementToAlbumUpdatesOne | server/src/main/java/musichub/server/ServerMusicHub.java:282-293 | addElementToAlbum changes albums() at exactly the resolved album's position, to that album with the song's id appended |
| HubProperties.AddElementToAlbumOtherTitles | server/src/main/java/musichub/server/ServerMusicHub.java:282-293 | every other album title resolves as before |
| HubProperties.AddElementToAlbumFrame | server/src/main/java/musichub/server/ServerMusicHub.java:282-293 | elements, their lookups and the playlists are unchanged |
| HubProperties.AddElementToPlayListUpdatesOne | server/src/main/java/musichub/server/ServerMusicHub.java:295-303 | addElementToPlayList changes playlists() at exactly the resolved playlist's position, to that playlist with the element's id appended |
| HubProperties.AddElementToPlayListOtherTitles | server/src/main/java/musichub/server/ServerMusicHub.java:295-303 | every other playlist title resolves as before |
| HubProperties.AddElementToPlayListFrame | server/src/main/java/musichub/server/ServerMusicHub.java:295-303 | elements, their lookups and the albums are unchanged |
| HubProperties.AlbumSongsAfterAdd | server/src/test/java/musichub/server/ServerMusicHubTest.java:132-137 | after addElementToAlbum, getAlbumSongs is the previous result followed by the added song |
| HubProperties.PlaylistElementsAfterAdd | server/src/test/java/musichub/server/ServerMusicHubTest.java:141-146 | after addElementToPlayList, getPlaylistElements is the previous result followed by the added element |
| HubProperties.AddElementFilters | server/src/main/java/musichub/server/ServerMusicHub.java:177-197 | adding an element extends songs() or audioBooks(), according to its kind, by that element, and leaves the other filter alone |
| HubInit.ElementIndex | server/src/main/java/musichub/server/ServerMusicHub.java:112-115 | the rebuilt element index holds exactly the keys of the listed elements, each mapped to the last element with that key |
| HubInit.Initialize | server/src/main/java/musichub/server/ServerMusicHub.java:107-116 | the index rebuild after loading yields a consistent hub with the loaded lists unchanged |
| HubInit.InitializeElementByTitle | server/src/main/java/musichub/server/ServerMusicHub.java:112-113 | after loading, a title resolves exactly when some element carries it (in any case), and to the last such element |
| HubInit.InitializeElementById | server/src/main/java/musichub/server/ServerMusicHub.java:112-114 | after loading, an id resolves exactly when some element carries it, and to the last such element |
| HubInit.InitializeAlbumByTitle | server/src/main/java/musichub/server/ServerMusicHub.java:108-109 | after loading, an album title resolves exactly when some album carries it, and to the last such album |
| HubInit.InitializePlaylistByTitle | server/src/main/java/musichub/server/ServerMusicHub.java:110-111 | after loading, a playlist title resolves exactly when some playlist carries it, and to the last such playlist |
| HubInit.InitializeEmpty | server/src/main/java/musichub/server/ServerMusicHub.java:101-116 | loading three empty lists gives the same hub as the constructor |
| HubInit.InitializeThenAddElement | server/src/main/java/musichub/server/ServerMusicHub.java:112-123 | addElement on a loaded hub equals loading the list with that element appended: the index upkeep of addElement and the rebuild agree |
| HubInit.InitializeThenAddAlbum | server/src/main/java/musichub/server/ServerMusicHub.java:107-129 | addAlbum on a loaded hub equals loading the album list with that album appended |
| HubInit.InitializeThenAddPlaylist | server/src/main/java/musichub/server/ServerMusicHub.java:107-135 | addPlaylist on a loaded hub equals loading the playlist list with that playlist appended |
| HubScenarios.GenreSortExample | server/src/test/java/musichub/server/ServerMusicHubTest.java:150-151 | sorting Song1 (pop) and Song2 (rock) by genre gives Song2 then Song1 |
| HubScenarios.AuthorSortExample | server/src/test/java/musichub/server/ServerMusicHubTest.java:72-73 | sorting Book1 (ZArtist3) and Book2 (Artist4) by author gives Book2 then Book1 |
| HubScenarios.DateSortExample | server/src/test/java/musichub/server/ServerMusicHubTest.java:82-83 | sorting Album1 and the older Album2 by date gives Album2 then Album1 |
| HubScenarios.AlbumSongsExample | server/src/test/java/musichub/server/ServerMusicHubTest.java:122-123 | Album1's songs come back as Song1, Song2 |
| HubScenarios.AlbumSongsSortedByGenreExample | server/src/test/java/musichub/server/ServerMusicHubTest.java:150-151 | Album1's songs sorted by genre come back as Song2, Song1 |
| HubScenarios.AddAudiobookToAlbumFails | server/src/test/java/musichub/server/ServerMusicHubTest.java:226-228 | adding Book1 to an album fails with NoElementFound (not a song) |
| HubScenarios.AlbumSongsFailIfBook | server/src/test/java/musichub/server/ServerMusicHubTest.java:193-198 | an album listing an audio book's id makes getAlbumSongs fail with NoElementFound |
| TableFormatter.NewTable | common/src/main/java/musichub/main/TableFormatter.java:12-20 | the constructor stores the header as the only line, one column per header cell, each as wide as its cell |
| TableFormatter.AddLine | common/src/main/java/musichub/main/TableFormatter.java:22-36 | a row of the wrong arity is refused with no change; otherwise the row is appended after the earlier ones, no width shrinks, and every width is again its column's longest cell |
| TableFormatter.SplitJoin | common/src/main/java/musichub/main/TableFormatter.java:41-48 | cells joined by a separator they do not contain can be cut back into those cells |
| TableFormatter.SepLineSplits | common/src/main/java/musichub/main/TableFormatter.java:38-51 | a rule line consists of width+2 '─' per column, separated by the given character |
| TableFormatter.DataCell | common/src/main/java/musichub/main/TableFormatter.java:58-63 | a data cell is a space, the text and padding spaces, exactly width+2 characters when the text fits the width |
| TableFormatter.DataLineSplits | common/src/main/java/musichub/main/TableFormatter.java:53-66 | a data line cut at '│' gives back the padded cells, each holding its cell text after the leading space |
| TableFormatter.LinesAlign | common/src/main/java/musichub/main/TableFormatter.java:38-66 | under the width invariant a data line is exactly as wide as a rule line |
| TableFormatter.DisplayLines | common/src/main/java/musichub/main/TableFormatter.java:68-76 | display shows the '┬' rule, the header, the '┼' rule, the data rows in insertion order and the '┴' rule |
| TableFormatter.DisplayIsRectangular | common/src/main/java/musichub/main/TableFormatter.java:68-76 | every displayed line of a consistent table has the same width |
| TableFormatter.DisplayWrites | common/src/main/java/musichub/main/TableFormatter.java:68-76 | display as written: each line goes to the stream and its line break to System.out, line by line in display order |
| TableFormatter.LinesWritesSplit | common/src/main/java/musichub/main/TableFormatter.java:38-66 | as written, the stream receives the lines run together and System.out receives only the line breaks |
| TableFormatter.DisplayStreamHasNoLineBreak | common/src/main/java/musichub/main/TableFormatter.java:50-65 | as written, the stream given to display receives no line break at all, and System.out receives one per line |
| TableFormatter.DisplayToStreamExample | common/src/main/java/musichub/main/TableFormatter.java:68-76 | for a table whose only line is the header "a", as new TableFormatter("a") builds, the stream receives the four lines glued into one |
| TableFormatter.Display | common/src/main/java/musichub/main/TableFormatter.java:68-76 | the intended output is what the as-written calls produce when the stream is System.out |
| TableFormatter.DisplayLineCount | common/src/main/java/musichub/main/TableFormatter.java:68-76 | the intended output has one line break per rule, header and data row |

## Left out

- Loading and saving (`load`, `save`, JAXB marshalling, `Album.DateAdapter`): file and XML I/O. Only the index rebuild after loading, `initializeOptimizationStructures`, is modelled (`HubInit.Initialize`).
- `downloadElement` and `AudioElement.getDataLocation`: file access.
- `MusicPlayer`, `MusicTerminal`, `ServerMusicTerminal`, both `Main` classes, `LogFormatter` and every `LOGGER` call: audio output, interactive shells, web-service publishing and logging.
- `IMusicHub`: its signatures disagree with `ServerMusicHub`, whose methods are the contract used here.
- Null arguments and the `NullPointerException`s the tests expect: every Dafny value is non-null.
- `UUID.randomUUID()` and `new Date()`: identifiers and the current instant are parameters (`newId`, `now`). Parsing dates from "yyyy-MM-dd" text is not modelled; a date is an `int` instant.
- `Random` in `Collections.shuffle`: the random draws are a parameter of `Albums.SongsRandomly`.
- The no-argument `Song()` and `AudioBook()` constructors: they leave the genre, language and category null and exist only for unmarshalling.
- `String.toLowerCase` is modelled for ASCII letters only (`Text.Lower`); locale-specific case mappings are not.
- `Text.StringLe` compares characters as Dafny `char`s. Java compares UTF-16 code units, which orders differently only for characters outside the Basic Multilingual Plane.
- Java's 32-bit `int` for lengths: the model uses unbounded integers. The source does no arithmetic on lengths.
- `TableFormatter` widths and padding count Dafny `char`s, while `String.length()` and `printf` padding count UTF-16 code units. For text outside the Basic Multilingual Plane a character counts 1 here and 2 in Java, so `TableFormatter.AddLine`'s widths and `TableFormatter.DataCell`'s padding differ from Java for such text.
- Adding the same `Album` or `PlayList` object to the hub twice: `MusicHub.AddAlbum` and `MusicHub.AddPlaylist` always add a new object, so two list entries sharing one object cannot be expressed.
- Element identity: elements are values. `elements.remove` removes by identity, and the model removes the first equal value. The two differ only for two element objects with identical fields.
- The live lists that `getSongs` and `getElements` return, through which a caller could mutate an album or playlist.
- Objects returned by the lookups are shared with the hub: `elementByTitle` and `albumByTitle` hand out the stored objects, so a caller's `setGenre`, `setLanguage`, `setCategory` or `addSong` on them changes the hub. Here lookups return values (an element) or go through the hub's own operations (an album), and a caller's change to a returned element does not reach the hub.
- The timing claims of `ServerMusicHubPerfTest`: maps are modelled as Dafny maps, without cost.
- `Object.toString` of the values passed to `addLine`: `TableFormatter.AddLine` receives the cells already converted to strings.
- HubProperties.AlbumSongsAfterAdd: assumes the song found by title is also the element its id resolves to, because the source does not keep ids unique and a later element with the same id would shadow it in the id index.
- HubProperties.PlaylistElementsAfterAdd: assumes the same of the added element, for the same reason.
- HubScenarios.AlbumSongsExample: stated for any consistent hub in which Album1 and the two song ids resolve as in the test fixture, rather than for the hub built by the fixture's add calls.
- HubScenarios.AlbumSongsSortedByGenreExample: stated for any consistent hub in which Album1 and the two song ids resolve as in the test fixture, rather than for the hub built by the fixture's add calls.
- HubScenarios.AddAudiobookToAlbumFails: stated for any consistent hub in which "Book1" resolves to the fixture's book.
- HubScenarios.AlbumSongsFailIfBook: stated for any consistent hub in which the book's id resolves to the fixture's book.
- TableFormatter.DisplayToStreamExample: stated for any consistent table whose only line is the header "a", which is what the constructor builds from that header.

## Findings

| source | as written | input that shows it | evidently intended | confidence | as-written member | corrected member |
|---|---|---|---|---|---|---|
| common/src/main/java/musichub/main/TableFormatter.java:50-65 | `displaySepLine` and `displayDataLine` print their text to the given stream but end the line with `System.out.println()` | `display(s)` of `new TableFormatter("a")` with `s` not `System.out`: `s` receives "─── a ──────" on one line, and `System.out` receives four bare line breaks | each line followed by its line break on the given stream | not executed; high | TableFormatter.DisplayWrites (shown by TableFormatter.DisplayToStreamExample and TableFormatter.DisplayStreamHasNoLineBreak) | TableFormatter.Display (TableFormatter.DisplayLineCount) |
