/**
 * The three enumerations of the business package. Their declaration order is
 * their ordinal, and Enum.compareTo compares ordinals; each toString is the
 * lower-cased constant name.
 */
module Enums {

  datatype Genre = JAZZ | CLASSIC | HIPHOP | ROCK | POP | RAP | METAL

  datatype Language = FRENCH | ENGLISH | ITALIAN | SPANISH | GERMAN

  datatype Category = YOUTH | NOVEL | THEATER | DOCUMENTARY | SPEECH

  /** Position of the constant in the declaration of Genre. */
  function GenreOrdinal(g: Genre): nat
  {
    match g
    case JAZZ => 0
    case CLASSIC => 1
    case HIPHOP => 2
    case ROCK => 3
    case POP => 4
    case RAP => 5
    case METAL => 6
  }

  function GenreName(g: Genre): string
  {
    match g
    case JAZZ => "jazz"
    case CLASSIC => "classic"
    case HIPHOP => "hiphop"
    case ROCK => "rock"
    case POP => "pop"
    case RAP => "rap"
    case METAL => "metal"
  }

  function LanguageName(l: Language): string
  {
    match l
    case FRENCH => "french"
    case ENGLISH => "english"
    case ITALIAN => "italian"
    case SPANISH => "spanish"
    case GERMAN => "german"
  }

  function CategoryName(c: Category): string
  {
    match c
    case YOUTH => "youth"
    case NOVEL => "novel"
    case THEATER => "theater"
    case DOCUMENTARY => "documentary"
    case SPEECH => "speech"
  }

  /** The ordinal is a bijection onto 0..6 that follows the declaration order. */
  lemma GenreOrdinalInjective(g: Genre, h: Genre)
    ensures GenreOrdinal(g) == GenreOrdinal(h) <==> g == h
    ensures GenreOrdinal(g) < 7
  {
  }

  lemma NamesInjective()
    ensures forall g, h :: GenreName(g) == GenreName(h) ==> g == h
    ensures forall l, m :: LanguageName(l) == LanguageName(m) ==> l == m
    ensures forall c, d :: CategoryName(c) == CategoryName(d) ==> c == d
  {
  }
}
