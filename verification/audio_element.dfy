/**
 * AudioElement and its two variants, Song and AudioBook, as one tagged
 * datatype. The getters (getTitle, getArtist, getUUID, getLanguage,
 * getCategory) are the datatype's destructors.
 */
module AudioElements {
  import opened Text
  import opened Enums

  /** java.util.UUID, taken as given: the model never generates identifiers. */
  type Uuid = nat

  datatype AudioElement =
    | Song(title: string, artist: string, lengthInSeconds: int, uuid: Uuid, content: string,
           genre: Genre)
    | AudioBook(title: string, artist: string, lengthInSeconds: int, uuid: Uuid, content: string,
                language: Language, category: Category)

  /** The static types Song and AudioBook of the source. */
  type SongElement = e: AudioElement | e.Song? witness Song("", "", 0, 0, "", JAZZ)

  type BookElement = e: AudioElement | e.AudioBook? witness AudioBook("", "", 0, 0, "", ENGLISH, YOUTH)

  /** Song.setGenre: a switch on the lower-cased argument whose default branch shares
      the "jazz" case, so every unlisted string, "metal" among them, gives JAZZ. */
  function ParseGenre(s: string): (g: Genre)
    ensures g != METAL
    ensures g != JAZZ ==> Lower(s) == GenreName(g)
    ensures forall h :: h != METAL && Lower(s) == GenreName(h) ==> g == h
  {
    var k := Lower(s);
    if k == "classic" then CLASSIC
    else if k == "hiphop" then HIPHOP
    else if k == "rock" then ROCK
    else if k == "pop" then POP
    else if k == "rap" then RAP
    else JAZZ
  }

  /** AudioBook.setLanguage: the default branch shares the "english" case. */
  function ParseLanguage(s: string): (l: Language)
    ensures l != ENGLISH ==> Lower(s) == LanguageName(l)
    ensures forall m :: Lower(s) == LanguageName(m) ==> l == m
  {
    var k := Lower(s);
    if k == "french" then FRENCH
    else if k == "german" then GERMAN
    else if k == "spanish" then SPANISH
    else if k == "italian" then ITALIAN
    else ENGLISH
  }

  /** AudioBook.setCategory: the default branch shares the "youth" case. */
  function ParseCategory(s: string): (c: Category)
    ensures c != YOUTH ==> Lower(s) == CategoryName(c)
    ensures forall d :: Lower(s) == CategoryName(d) ==> c == d
  {
    var k := Lower(s);
    if k == "novel" then NOVEL
    else if k == "theater" then THEATER
    else if k == "documentary" then DOCUMENTARY
    else if k == "speech" then SPEECH
    else YOUTH
  }

  /** Every genre but METAL is named by its own toString, in any letter case;
      "metal" falls to the default. */
  lemma GenreNameRoundTrip(g: Genre, s: string)
    requires Lower(s) == GenreName(g)
    ensures g != METAL ==> ParseGenre(s) == g
    ensures g == METAL ==> ParseGenre(s) == JAZZ
  {
  }

  /** Every Language and every Category constant is produced by some input string. */
  lemma LanguageAndCategoryReachable(l: Language, c: Category)
    ensures ParseLanguage(LanguageName(l)) == l
    ensures ParseCategory(CategoryName(c)) == c
  {
    assert Lower(LanguageName(l)) == LanguageName(l);
    assert Lower(CategoryName(c)) == CategoryName(c);
  }

  /** The Song constructors: AudioElement's constructor stores the five common fields,
      then setGenre parses the genre string. The constructor without an id draws a
      random UUID; the model receives that UUID as `id`. */
  function NewSong(title: string, artist: string, length: int, id: Uuid, content: string,
                   genre: string): (s: SongElement)
    ensures s.title == title && s.artist == artist && s.lengthInSeconds == length
    ensures s.uuid == id && s.content == content
    ensures s.genre == ParseGenre(genre)
  {
    Song(title, artist, length, id, content, ParseGenre(genre))
  }

  /** The AudioBook constructors: common fields, then setLanguage, then setCategory. */
  function NewAudioBook(title: string, artist: string, length: int, id: Uuid, content: string,
                        language: string, category: string): (b: BookElement)
    ensures b.title == title && b.artist == artist && b.lengthInSeconds == length
    ensures b.uuid == id && b.content == content
    ensures b.language == ParseLanguage(language) && b.category == ParseCategory(category)
  {
    AudioBook(title, artist, length, id, content, ParseLanguage(language), ParseCategory(category))
  }

  /** Rebuilding a song from its fields and its genre's name gives the song back,
      except that a METAL song comes back as JAZZ. */
  lemma {:induction false} SongConstructorRoundTrip(s: SongElement)
    ensures s.genre != METAL ==>
      NewSong(s.title, s.artist, s.lengthInSeconds, s.uuid, s.content, GenreName(s.genre)) == s
    ensures s.genre == METAL ==>
      NewSong(s.title, s.artist, s.lengthInSeconds, s.uuid, s.content, GenreName(s.genre)) == s.(genre := JAZZ)
  {
    assert Lower(GenreName(s.genre)) == GenreName(s.genre);
    GenreNameRoundTrip(s.genre, GenreName(s.genre));
  }

  /** Rebuilding an audio book from its fields and the names of its language and
      category gives the book back. */
  lemma {:induction false} AudioBookConstructorRoundTrip(b: BookElement)
    ensures NewAudioBook(b.title, b.artist, b.lengthInSeconds, b.uuid, b.content,
                         LanguageName(b.language), CategoryName(b.category)) == b
  {
    LanguageAndCategoryReachable(b.language, b.category);
  }

  /** Song.setGenre on an existing song. */
  function SetGenre(s: SongElement, genre: string): (r: SongElement)
    ensures r.genre == ParseGenre(genre)
    ensures r.(genre := s.genre) == s
  {
    s.(genre := ParseGenre(genre))
  }

  /** AudioBook.setLanguage: only the language changes. */
  function SetLanguage(b: BookElement, language: string): (r: BookElement)
    ensures r.language == ParseLanguage(language)
    ensures r.category == b.category
    ensures r.(language := b.language) == b
  {
    b.(language := ParseLanguage(language))
  }

  /** AudioBook.setCategory: only the category changes. */
  function SetCategory(b: BookElement, category: string): (r: BookElement)
    ensures r.category == ParseCategory(category)
    ensures r.language == b.language
    ensures r.(category := b.category) == b
  {
    b.(category := ParseCategory(category))
  }

  /** AudioElement.toString. The length is printed as Java prints an int: a canonical
      decimal (no leading zero, no "-0") that reads back as the element's length;
      Text.IntToStringUnique shows this text is exactly IntToString of the length. */
  function ElementString(e: AudioElement): (r: string)
    ensures exists len: string ::
      && CanonicalDecimal(len)
      && IntValue(len) == e.lengthInSeconds
      && r == "Title = " + e.title + ", Artist = " + e.artist + ", Length = " + len
              + ", Content = " + e.content
    ensures r == "Title = " + e.title + ", Artist = " + e.artist + ", Length = "
                 + IntToString(e.lengthInSeconds) + ", Content = " + e.content
  {
    var len := IntToString(e.lengthInSeconds);
    IntToStringRoundTrip(e.lengthInSeconds);
    "Title = " + e.title + ", Artist = " + e.artist + ", Length = " + len + ", Content = " + e.content
  }

  /** What the subclass's toString appends to AudioElement.toString: the lower-case
      genre name for a Song, the language and category for an AudioBook, then a
      line break. */
  function KindSuffix(e: AudioElement): (r: string)
    ensures |r| >= 1 && r[|r| - 1] == '\n'
    ensures e.Song? ==> r == ", Genre = " + GenreName(e.genre) + "\n"
    ensures e.AudioBook? ==>
      r == ", Language = " + LanguageName(e.language) + ", Category = " + CategoryName(e.category) + "\n"
  {
    match e
    case Song(_, _, _, _, _, genre) =>
      ", Genre = " + GenreName(genre) + "\n"
    case AudioBook(_, _, _, _, _, language, category) =>
      ", Language = " + LanguageName(language) + ", Category = " + CategoryName(category) + "\n"
  }

  /** toString as dispatched on the runtime class. */
  function ToString(e: AudioElement): (r: string)
    ensures ElementString(e) <= r
    ensures r[|r| - 1] == '\n'
    ensures r[|ElementString(e)|..] == KindSuffix(e)
    ensures r == ElementString(e) + KindSuffix(e)
    ensures e.Song? ==> r == ElementString(e) + (", Genre = " + GenreName(e.genre) + "\n")
    ensures e.AudioBook? ==>
      r == ElementString(e) + (", Language = " + LanguageName(e.language)
                               + ", Category = " + CategoryName(e.category) + "\n")
  {
    var base := ElementString(e);
    var r := base + KindSuffix(e);
    assert r[|base|..] == KindSuffix(e);
    r
  }

  predicate NoChar(s: string, c: char)
  {
    forall i :: 0 <= i < |s| ==> s[i] != c
  }

  /** Where the shorter prefix a meets c, the c-free longer prefix b still has another
      character. */
  lemma DiffersAtCut(a: string, c1: string, b: string, c2: string, c: char)
    requires NoChar(b, c)
    requires |c1| >= 1 && c1[0] == c && |a| < |b|
    ensures (a + c1)[|a|] != (b + c2)[|a|]
  {
  }

  /** Two strings that each run up to the first c and then continue with c split
      at the same place. */
  lemma CutAtFirst(a: string, c1: string, b: string, c2: string, c: char)
    requires NoChar(a, c) && NoChar(b, c)
    requires |c1| >= 1 && c1[0] == c && |c2| >= 1 && c2[0] == c
    requires a + c1 == b + c2
    ensures a == b && c1 == c2
  {
    if |a| < |b| {
      DiffersAtCut(a, c1, b, c2, c);
      assert false;
    } else if |b| < |a| {
      DiffersAtCut(b, c2, a, c1, c);
      assert false;
    }
    assert a == (a + c1)[..|a|];
    assert b == (b + c2)[..|b|];
    assert c1 == (a + c1)[|a|..];
    assert c2 == (b + c2)[|b|..];
  }

  lemma NamesHaveNoComma(l: Language)
    ensures NoChar(LanguageName(l), ',')
  {
  }

  /** The genre sits between the fixed text ", Genre = " and the line break. */
  lemma SongSuffixParts(g: string)
    ensures (", Genre = " + g + "\n")[2] == 'G'
    ensures (", Genre = " + g + "\n")[10..|g| + 10] == g
  {
  }

  /** The language follows the fixed text ", Language = ", and the rest starts
      with ", Category = ". */
  lemma BookSuffixParts(l: string, c: string)
    ensures (", Language = " + l + ", Category = " + c + "\n")[2] == 'L'
    ensures (", Language = " + l + ", Category = " + c + "\n")[13..] == l + (", Category = " + c + "\n")
    ensures (", Category = " + c + "\n")[13..|c| + 13] == c
  {
  }

  lemma SongSuffixDetermines(a: AudioElement, b: AudioElement)
    requires a.Song? && b.Song? && KindSuffix(a) == KindSuffix(b)
    ensures a.genre == b.genre
  {
    var ga, gb := GenreName(a.genre), GenreName(b.genre);
    SongSuffixParts(ga);
    SongSuffixParts(gb);
    assert |ga| == |gb|;
    NamesInjective();
  }

  lemma BookSuffixDetermines(a: AudioElement, b: AudioElement)
    requires a.AudioBook? && b.AudioBook? && KindSuffix(a) == KindSuffix(b)
    ensures a.language == b.language && a.category == b.category
  {
    var la, lb := LanguageName(a.language), LanguageName(b.language);
    var ca, cb := CategoryName(a.category), CategoryName(b.category);
    BookSuffixParts(la, ca);
    BookSuffixParts(lb, cb);
    NamesHaveNoComma(a.language);
    NamesHaveNoComma(b.language);
    CutAtFirst(la, ", Category = " + ca + "\n", lb, ", Category = " + cb + "\n", ',');
    assert |ca| == |cb|;
    NamesInjective();
  }

  /** The suffix that toString appends identifies the element's kind and its
      genre, or its language and category: two elements with the same suffix
      agree on these. */
  lemma KindSuffixDetermines(a: AudioElement, b: AudioElement)
    requires KindSuffix(a) == KindSuffix(b)
    ensures a.Song? <==> b.Song?
    ensures a.Song? && b.Song? ==> a.genre == b.genre
    ensures a.AudioBook? && b.AudioBook? ==> a.language == b.language && a.category == b.category
  {
    if a.Song? {
      SongSuffixParts(GenreName(a.genre));
    } else {
      BookSuffixParts(LanguageName(a.language), CategoryName(a.category));
    }
    if b.Song? {
      SongSuffixParts(GenreName(b.genre));
    } else {
      BookSuffixParts(LanguageName(b.language), CategoryName(b.category));
    }
    if a.Song? && b.Song? {
      SongSuffixDetermines(a, b);
    } else if a.AudioBook? && b.AudioBook? {
      BookSuffixDetermines(a, b);
    }
  }
}
