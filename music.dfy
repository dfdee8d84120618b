/** Songs, the error values of GO/music.go, and the first-match search that
    the catalog and every playlist share. */
module Music {

  /** One track (`Song` in music.go). The source measures `length` as a
      float32 number of seconds; here it is a whole number of seconds. */
  datatype Song = Song(path: string, title: string, artist: string, album: string,
                       genre: string, year: int, length: int)

  /** Go's `error` result: nil, or `errors.New(msg)`. */
  datatype Status = Ok | Err(msg: string)

  /** The value an operation produces, or the message of the error it returns. */
  datatype Result<T> = Success(value: T) | Failure(msg: string)

  datatype Option<T> = None | Some(value: T)

  // The error messages, spelt as music.go spells them.
  const PlaylistNotFound: string := "playlist not found"
  const PlaylistExists: string := "playlist already exist"
  const SongNotFound: string := "song not found"
  const SongNotFoundA: string := "song not found A"
  const SongNotFoundB: string := "song not found B"

  function StatusOf<T>(r: Result<T>): Status {
    if r.Success? then Ok else Err(r.msg)
  }

  /** The titles of `songs`, in order. */
  function Titles(songs: seq<Song>): (r: seq<string>)
    ensures |r| == |songs| && forall k :: 0 <= k < |songs| ==> r[k] == songs[k].title
  {
    seq(|songs|, k requires 0 <= k < |songs| => songs[k].title)
  }

  /** The position of the first `key` in `keys`, or -1 when there is none:
      what every search loop of music.go computes. */
  function IndexOf(keys: seq<string>, key: string): (r: int)
    ensures -1 <= r < |keys|
    ensures r == -1 <==> key !in keys
    ensures r >= 0 ==> keys[r] == key && forall k :: 0 <= k < r ==> keys[k] != key
  {
    if |keys| == 0 then -1
    else if keys[0] == key then 0
    else
      var r := IndexOf(keys[1..], key);
      if r == -1 then -1 else r + 1
  }

  /** `append(s[:i], s[i+1:]...)`: drop the element at `i`, keep the order of the rest. */
  function Remove<T>(s: seq<T>, i: nat): (r: seq<T>)
    requires i < |s|
    ensures |r| == |s| - 1
    ensures forall k :: 0 <= k < i ==> r[k] == s[k]
    ensures forall k :: i <= k < |r| ==> r[k] == s[k + 1]
  {
    s[..i] + s[i + 1..]
  }

  /** Removing what was just appended gives back the sequence. */
  lemma RemoveLast<T>(s: seq<T>, x: T)
    ensures Remove(s + [x], |s|) == s
  {
    assert (s + [x])[..|s|] == s;
  }

  /** Appending a song whose title is new puts that title last, and the first
      match of the title is then the appended song. */
  lemma {:induction false} IndexOfAppended(songs: seq<Song>, song: Song)
    requires song.title !in Titles(songs)
    ensures Titles(songs + [song]) == Titles(songs) + [song.title]
    ensures IndexOf(Titles(songs + [song]), song.title) == |songs|
  {
    assert Titles(songs + [song]) == Titles(songs) + [song.title];
  }

  /** `SearchSong` (a method of `*Playlist` in music.go, applied both to a
      playlist and to the catalog): the first song whose title is `title`,
      with its position, or an error and -1. */
  method SearchSong(songs: seq<Song>, title: string) returns (song: Option<Song>, i: int, err: Status)
    ensures i == IndexOf(Titles(songs), title)
    ensures i == -1 ==> song == None && err == Err(SongNotFoundA)
    ensures i != -1 ==> song == Some(songs[i]) && songs[i].title == title && err == Ok
  {
    i := 0;
    while i < |songs|
      invariant 0 <= i <= |songs|
      invariant forall k :: 0 <= k < i ==> songs[k].title != title
    {
      if songs[i].title == title {
        assert Titles(songs)[i] == title;
        return Some(songs[i]), i, Ok;
      }
      i := i + 1;
    }
    assert title !in Titles(songs);
    return None, -1, Err(SongNotFoundA);
  }
}
