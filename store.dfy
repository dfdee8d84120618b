/** The mutable playlist store of GO/music.go: `Playlist` objects reached
    through pointers held in a `Playlists` slice. Every operation is proved
    to change the store exactly as the matching function of module
    Collection says, and to keep names (and the titles in each playlist)
    unique. */
module Store {
  import opened Music
  import opened Collection

  /** `Playlist` in music.go. Its name is set when the playlist is created
      and never reassigned; its songs are replaced by AddSong and DeleteSong. */
  class Playlist {
    const name: string
    var songs: seq<Song>

    constructor (name: string)
      ensures this.name == name && songs == []
    {
      this.name := name;
      songs := [];
    }
  }

  /** `Playlists` in music.go: a slice of pointers to playlists. */
  class Playlists {
    // public view: the value of each playlist, in order
    ghost var Contents: seq<Entry>

    // implementation: the slice of pointers
    var lists: seq<Playlist>

    /** `Contents` mirrors the playlists the slice points to, and is well
        formed (unique names, unique titles inside each playlist). */
    ghost predicate Valid()
      reads this, lists
    {
      |Contents| == |lists| &&
      (forall k :: 0 <= k < |lists| ==> Contents[k] == Entry(lists[k].name, lists[k].songs)) &&
      WellFormed(Contents)
    }

    /** Distinct names make distinct objects: updating one playlist through
        its pointer leaves every other one alone. */
    lemma Distinct(i: nat)
      requires Valid() && i < |lists|
      ensures forall k :: 0 <= k < |lists| && k != i ==> lists[k] != lists[i]
    {
      var ns := Names(Contents);
      forall k | 0 <= k < |lists| && k != i ensures lists[k] != lists[i] {
        if k < i { assert ns[k] != ns[i]; } else { assert ns[i] != ns[k]; }
      }
    }

    /** An empty store, like `metaPLS` in server.go; `GENPLAYLISTS` in
        music.go instead starts out holding the catalog. */
    constructor ()
      ensures Valid() && Contents == []
    {
      lists := [];
      Contents := [];
    }

    /** `SearchPlaylist`: the first playlist called `name`, with its
        position, or null, -1 and an error. */
    method SearchPlaylist(name: string) returns (pl: Playlist?, i: int, err: Status)
      requires Valid()
      ensures i == IndexOf(Names(Contents), name)
      ensures i == -1 ==> pl == null && err == Err(PlaylistNotFound)
      ensures i != -1 ==> pl == lists[i] && pl.name == name && err == Ok
    {
      i := 0;
      while i < |lists|
        invariant 0 <= i <= |lists|
        invariant forall k :: 0 <= k < i ==> Contents[k].name != name
      {
        if lists[i].name == name {
          assert Names(Contents)[i] == name;
          return lists[i], i, Ok;
        }
        i := i + 1;
      }
      assert name !in Names(Contents);
      return null, -1, Err(PlaylistNotFound);
    }

    /** `FullSearch`: the playlist, then the song inside it. Three outcomes:
        no playlist; a playlist but no song; both. */
    method FullSearch(name: string, title: string)
      returns (pl: Playlist?, song: Option<Song>, i: int, j: int, err: Status)
      requires Valid()
      ensures i == IndexOf(Names(Contents), name)
      ensures i == -1 ==> pl == null && song == None && j == -1 && err == Err(PlaylistNotFound)
      ensures i != -1 ==> pl == lists[i] && pl.name == name && j == IndexOf(Titles(Contents[i].songs), title)
      ensures i != -1 && j == -1 ==> song == None && err == Err(SongNotFoundB)
      ensures i != -1 && j != -1 ==>
        song == Some(Contents[i].songs[j]) && Contents[i].songs[j].title == title && err == Ok
    {
      var e;
      pl, i, e := SearchPlaylist(name);
      if e.Err? {
        return null, None, -1, -1, Err(PlaylistNotFound);
      }
      song, j, e := SearchSong(pl.songs, title);
      if e.Err? {
        return pl, None, i, -1, Err(SongNotFoundB);
      }
      err := Ok;
    }

    /** `DeletePlaylist`: splice the first playlist called `name` out of the
        slice; an error and no change when there is none. */
    method DeletePlaylist(name: string) returns (pls: Playlists?, err: Status)
      requires Valid()
      modifies this
      ensures Valid()
      ensures var r := Collection.DeletePlaylist(old(Contents), name);
        err == StatusOf(r) && Contents == (if r.Success? then r.value else old(Contents))
      ensures pls == if err == Ok then this else null
      ensures err == Ok ==> lists == Remove(old(lists), IndexOf(Names(old(Contents)), name))
      ensures err != Ok ==> lists == old(lists)
    {
      var _, i, e := SearchPlaylist(name);
      if e.Err? {
        return null, Err(PlaylistNotFound);
      }
      ghost var after := Remove(Contents, i);
      assert Collection.DeletePlaylist(Contents, name) == Success(after);
      DeletePlaylistKeepsWellFormed(Contents, name);
      lists := Remove(lists, i);
      Contents := after;
      return this, Ok;
    }

    /** `AddPlaylist`: append a fresh, empty playlist called `name` unless one
        with that name exists. */
    method AddPlaylist(name: string) returns (pls: Playlists?, err: Status)
      requires Valid()
      modifies this
      ensures Valid()
      ensures var r := Collection.AddPlaylist(old(Contents), name);
        err == StatusOf(r) && Contents == (if r.Success? then r.value else old(Contents))
      ensures pls == if err == Ok then this else null
      ensures err == Ok ==> fresh(lists[|lists| - 1]) && lists[..|lists| - 1] == old(lists)
      ensures err != Ok ==> lists == old(lists)
    {
      var _, _, e := SearchPlaylist(name);
      if e.Err? {
        AddPlaylistKeepsWellFormed(Contents, name);
        var pl := new Playlist(name);
        lists := lists + [pl];
        Contents := Contents + [Entry(name, [])];
        return this, Ok;
      }
      return null, Err(PlaylistExists);
    }

    /** `DeleteSong`: splice the first song titled `title` out of the
        playlist called `name`, through the pointer the search returns. */
    method DeleteSong(name: string, title: string) returns (pl: Playlist?, err: Status)
      requires Valid()
      modifies this, lists
      ensures Valid() && lists == old(lists)
      ensures var r := Collection.DeleteSong(old(Contents), name, title);
        err == StatusOf(r) && Contents == (if r.Success? then r.value else old(Contents))
      ensures var i := IndexOf(Names(Contents), name); pl == if i == -1 then null else lists[i]
    {
      var q, _, i, j, e := FullSearch(name, title);
      if e.Err? {
        return q, Err(SongNotFoundB);
      }
      DeleteSongKeepsWellFormed(Contents, name, title);
      Distinct(i);
      ghost var after := Contents[i := Entry(name, Remove(Contents[i].songs, j))];
      NamesAfterUpdate(Contents, i, after[i]);
      q.songs := Remove(q.songs, j);
      Contents := after;
      return q, Ok;
    }

    /** `AddSong`: look `title` up in the catalog, then append that catalog
        song to the playlist called `name`, provided the playlist exists and
        does not hold the title yet. */
    method AddSong(catalog: seq<Song>, name: string, title: string) returns (pl: Playlist?, err: Status)
      requires Valid()
      modifies this, lists
      ensures Valid() && lists == old(lists)
      ensures var r := Collection.AddSong(catalog, old(Contents), name, title);
        err == StatusOf(r) && Contents == (if r.Success? then r.value else old(Contents))
      ensures pl == if err == Ok then lists[IndexOf(Names(Contents), name)] else null
    {
      var song, c, e := SearchSong(catalog, title);
      if e.Err? {
        AddSongFails(catalog, Contents, name, title);
        return null, Err(SongNotFound);
      }
      var q, _, i, j, _ := FullSearch(name, song.value.title);
      if i != -1 && j == -1 {
        AddSongSucceeds(catalog, Contents, name, title, i, c);
        AddSongKeepsWellFormed(catalog, Contents, name, title);
        Distinct(i);
        ghost var after := Contents[i := Entry(name, Contents[i].songs + [song.value])];
        NamesAfterUpdate(Contents, i, after[i]);
        q.songs := q.songs + [song.value];
        Contents := after;
        return q, Ok;
      }
      AddSongFails(catalog, Contents, name, title);
      return null, Err(PlaylistNotFound);
    }
  }

  /** The smoke test at the end of music.go, on a fresh store: create
      "MyPlaylist", add "In the End" to it, find both, delete the song, then
      the playlist. Every step succeeds and the store ends empty. */
  method SmokeTest(catalog: seq<Song>) returns (steps: seq<Status>, ghost last: seq<Entry>)
    requires "In the End" in Titles(catalog)
    ensures steps == [Ok, Ok, Ok, Ok, Ok, Ok]
    ensures last == []
  {
    var store := new Playlists();
    var _, e1 := store.AddPlaylist("MyPlaylist");
    var _, e2 := store.AddSong(catalog, "MyPlaylist", "In the End");
    var pl, _, e3 := store.SearchPlaylist("MyPlaylist");
    var _, _, e4 := SearchSong(pl.songs, "In the End");
    var _, e5 := store.DeleteSong("MyPlaylist", "In the End");
    var _, e6 := store.DeletePlaylist("MyPlaylist");
    steps, last := [e1, e2, e3, e4, e5, e6], store.Contents;
  }
}
