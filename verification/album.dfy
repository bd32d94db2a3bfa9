/**
 * Album: an append-only, ordered list of song identifiers plus descriptive
 * fields. The release date is an abstract, totally ordered instant (the
 * java.util.Date the source parses from "yyyy-MM-dd").
 */
module Albums {
  import opened AudioElements

  type Date = int

  datatype Album = Album(title: string, artist: string, lengthInSeconds: int, uuid: Uuid,
                         date: Date, songs: seq<Uuid>)

  /** The full constructor keeps the given id and song list as supplied. */
  function NewAlbumWithSongs(title: string, artist: string, length: int, id: Uuid, date: Date,
                             songs: seq<Uuid>): (a: Album)
    ensures a.title == title && a.artist == artist && a.lengthInSeconds == length
    ensures a.uuid == id && a.date == date && a.songs == songs
  {
    Album(title, artist, length, id, date, songs)
  }

  /** Album(title, artist, length, date): a fresh identifier (given here as `newId`)
      and no songs yet. */
  function NewAlbum(title: string, artist: string, length: int, date: Date, newId: Uuid): (a: Album)
    ensures a.title == title && a.artist == artist && a.lengthInSeconds == length
    ensures a.uuid == newId && a.date == date
    ensures a.songs == []
  {
    Album(title, artist, length, newId, date, [])
  }

  /** Album(): empty title and artist, length 0, the current instant (given here as
      `now`) and no songs. */
  function DefaultAlbum(newId: Uuid, now: Date): (a: Album)
    ensures a.title == "" && a.artist == "" && a.lengthInSeconds == 0
    ensures a.uuid == newId && a.date == now && a.songs == []
  {
    Album("", "", 0, newId, now, [])
  }

  /** addSong appends the id, even when it is already present. */
  function AddSong(a: Album, song: Uuid): (r: Album)
    ensures |r.songs| == |a.songs| + 1
    ensures r.songs[..|a.songs|] == a.songs && r.songs[|a.songs|] == song
    ensures multiset(r.songs)[song] == multiset(a.songs)[song] + 1
    ensures r.title == a.title && r.date == a.date && r.uuid == a.uuid
    ensures r.artist == a.artist && r.lengthInSeconds == a.lengthInSeconds
  {
    a.(songs := a.songs + [song])
  }

  /** Adding songs one by one lists them after the existing ones, in call order. */
  lemma {:induction false} AddSongsInOrder(a: Album, ids: seq<Uuid>)
    ensures AddSongs(a, ids).songs == a.songs + ids
    ensures AddSongs(a, ids).title == a.title && AddSongs(a, ids).date == a.date
    decreases |ids|
  {
    if |ids| > 0 {
      AddSongsInOrder(AddSong(a, ids[0]), ids[1..]);
      assert a.songs + [ids[0]] + ids[1..] == a.songs + ids;
    }
  }

  function AddSongs(a: Album, ids: seq<Uuid>): Album
    decreases |ids|
  {
    if |ids| == 0 then a else AddSongs(AddSong(a, ids[0]), ids[1..])
  }

  /** One step of Collections.shuffle: exchange positions i and j. */
  function Swap<T>(s: seq<T>, i: nat, j: nat): (r: seq<T>)
    requires i < |s| && j < |s|
    ensures |r| == |s|
    ensures multiset(r) == multiset(s)
  {
    s[i := s[j]][j := s[i]]
  }

  /** Collections.shuffle: for i from the size down to 2, swap position i-1 with a
      random position below i. The random source is the sequence `draws`; draw k is
      taken modulo the bound, in place of Random.nextInt(bound). */
  function Shuffle<T>(s: seq<T>, draws: seq<nat>, i: nat): (r: seq<T>)
    requires i <= |s|
    ensures |r| == |s|
    ensures multiset(r) == multiset(s)
    decreases i
  {
    if i <= 1 then s
    else
      var k := |s| - i;
      var d := if k < |draws| then draws[k] else 0;
      Shuffle(Swap(s, i - 1, d % i), draws, i - 1)
  }

  /** getSongsRandomly: a shuffled copy of the song list; the album is unchanged. */
  function SongsRandomly(a: Album, draws: seq<nat>): (r: seq<Uuid>)
    ensures |r| == |a.songs|
    ensures multiset(r) == multiset(a.songs)
    ensures forall id :: id in r <==> id in a.songs
  {
    var r := Shuffle(a.songs, draws, |a.songs|);
    assert forall id :: id in r <==> id in multiset(r);
    assert forall id :: id in a.songs <==> id in multiset(a.songs);
    r
  }
}
