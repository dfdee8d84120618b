/** The playlist collection of GO/music.go as a value: each playlist is an
    `Entry` (its name and its songs), the collection is their sequence. The
    functions here say what each operation of `Playlists` does to that
    value; the classes in module Store are proved to do exactly this. */
module Collection {
  import opened Music

  /** The value of one playlist. */
  datatype Entry = Entry(name: string, songs: seq<Song>)

  /** The playlist names, in order. */
  function Names(v: seq<Entry>): (r: seq<string>)
    ensures |r| == |v| && forall k :: 0 <= k < |v| ==> r[k] == v[k].name
  {
    seq(|v|, k requires 0 <= k < |v| => v[k].name)
  }

  predicate Unique(keys: seq<string>) {
    forall i, j :: 0 <= i < j < |keys| ==> keys[i] != keys[j]
  }

  /** What every collection built by these operations from an empty one
      satisfies: playlist names are unique, and so are the song titles
      inside each playlist. */
  predicate WellFormed(v: seq<Entry>) {
    Unique(Names(v)) && forall k :: 0 <= k < |v| ==> Unique(Titles(v[k].songs))
  }

  /** Every song of every playlist is a song of the catalog. */
  predicate FromCatalog(catalog: seq<Song>, v: seq<Entry>) {
    forall k, m :: 0 <= k < |v| && 0 <= m < |v[k].songs| ==> v[k].songs[m] in catalog
  }

  /** `AddPlaylist`: a new, empty playlist at the end, unless the name is taken. */
  function AddPlaylist(v: seq<Entry>, name: string): (r: Result<seq<Entry>>)
    ensures r.Success? <==> name !in Names(v)
    ensures r.Failure? ==> r.msg == PlaylistExists
    ensures r.Success? ==> |r.value| == |v| + 1 && r.value[..|v|] == v && r.value[|v|] == Entry(name, [])
  {
    if IndexOf(Names(v), name) == -1 then Success(v + [Entry(name, [])])
    else Failure(PlaylistExists)
  }

  /** `DeletePlaylist`: the first playlist with that name is spliced out. */
  function DeletePlaylist(v: seq<Entry>, name: string): (r: Result<seq<Entry>>)
    ensures r.Success? <==> name in Names(v)
    ensures r.Failure? ==> r.msg == PlaylistNotFound
    ensures r.Success? ==>
      var i := IndexOf(Names(v), name);
      v[i].name == name && (forall k :: 0 <= k < i ==> v[k].name != name) &&
      |r.value| == |v| - 1 &&
      (forall k :: 0 <= k < i ==> r.value[k] == v[k]) &&
      (forall k :: i <= k < |r.value| ==> r.value[k] == v[k + 1])
  {
    var i := IndexOf(Names(v), name);
    if i == -1 then Failure(PlaylistNotFound) else Success(Remove(v, i))
  }

  /** `DeleteSong`: the first song with that title is spliced out of the first
      playlist with that name; every other playlist stays as it was. */
  function DeleteSong(v: seq<Entry>, name: string, title: string): (r: Result<seq<Entry>>)
    ensures var i := IndexOf(Names(v), name);
      r.Success? <==> i != -1 && title in Titles(v[i].songs)
    ensures r.Failure? ==> r.msg == SongNotFoundB
    ensures r.Success? ==>
      var i := IndexOf(Names(v), name);
      var j := IndexOf(Titles(v[i].songs), title);
      |r.value| == |v| &&
      (forall k :: 0 <= k < |v| && k != i ==> r.value[k] == v[k]) &&
      r.value[i].name == name &&
      v[i].songs[j].title == title &&
      |r.value[i].songs| == |v[i].songs| - 1 &&
      (forall m :: 0 <= m < j ==> r.value[i].songs[m] == v[i].songs[m]) &&
      (forall m :: j <= m < |r.value[i].songs| ==> r.value[i].songs[m] == v[i].songs[m + 1])
  {
    var i := IndexOf(Names(v), name);
    if i == -1 then Failure(SongNotFoundB)
    else
      var j := IndexOf(Titles(v[i].songs), title);
      if j == -1 then Failure(SongNotFoundB)
      else Success(v[i := Entry(v[i].name, Remove(v[i].songs, j))])
  }

  /** `AddSong`: the first catalog song with that title is appended to the
      first playlist with that name, provided the catalog has the title, the
      playlist exists and does not hold the title yet. */
  function AddSong(catalog: seq<Song>, v: seq<Entry>, name: string, title: string): (r: Result<seq<Entry>>)
    ensures var i := IndexOf(Names(v), name);
      r.Success? <==> title in Titles(catalog) && i != -1 && title !in Titles(v[i].songs)
    ensures r.Failure? ==> r.msg == if title in Titles(catalog) then PlaylistNotFound else SongNotFound
    ensures r.Success? ==>
      var i := IndexOf(Names(v), name);
      var c := IndexOf(Titles(catalog), title);
      catalog[c].title == title && (forall k :: 0 <= k < c ==> catalog[k].title != title) &&
      |r.value| == |v| &&
      (forall k :: 0 <= k < |v| && k != i ==> r.value[k] == v[k]) &&
      r.value[i] == Entry(name, v[i].songs + [catalog[c]])
  {
    var c := IndexOf(Titles(catalog), title);
    if c == -1 then Failure(SongNotFound)
    else
      var song := catalog[c];
      var i := IndexOf(Names(v), name);
      if i != -1 && IndexOf(Titles(v[i].songs), song.title) == -1 then
        Success(v[i := Entry(v[i].name, v[i].songs + [song])])
      else Failure(PlaylistNotFound)
  }

  /** Replacing a playlist's songs leaves every name in place. */
  lemma NamesAfterUpdate(v: seq<Entry>, i: nat, e: Entry)
    requires i < |v| && e.name == v[i].name
    ensures Names(v[i := e]) == Names(v)
  {
    assert forall k :: 0 <= k < |v| ==> Names(v[i := e])[k] == Names(v)[k];
  }

  /** What the searches of `AddSong` find decides its success. */
  lemma AddSongSucceeds(catalog: seq<Song>, v: seq<Entry>, name: string, title: string, i: int, c: int)
    requires c == IndexOf(Titles(catalog), title) && c != -1
    requires i == IndexOf(Names(v), name) && i != -1
    requires IndexOf(Titles(v[i].songs), title) == -1
    ensures AddSong(catalog, v, name, title) == Success(v[i := Entry(name, v[i].songs + [catalog[c]])])
  {
  }

  /** `AddSong` fails with "song not found" when the catalog lacks the title,
      and otherwise with "playlist not found" when the playlist is missing or
      already holds the title. */
  lemma AddSongFails(catalog: seq<Song>, v: seq<Entry>, name: string, title: string)
    requires var i := IndexOf(Names(v), name);
      title !in Titles(catalog) || i == -1 || IndexOf(Titles(v[i].songs), title) != -1
    ensures AddSong(catalog, v, name, title)
      == Failure(if title in Titles(catalog) then PlaylistNotFound else SongNotFound)
  {
  }

  /** Creating a playlist and then looking it up finds it, last and empty. */
  lemma AddPlaylistThenSearch(v: seq<Entry>, name: string)
    requires AddPlaylist(v, name).Success?
    ensures var w := AddPlaylist(v, name).value;
      IndexOf(Names(w), name) == |v| && w[|v|].songs == []
  {
    var w := AddPlaylist(v, name).value;
    assert Names(w) == Names(v) + [name];
  }

  /** Creating the same playlist twice: the second call fails, and exactly
      one playlist carries the name. */
  lemma AddPlaylistTwice(v: seq<Entry>, name: string)
    requires AddPlaylist(v, name).Success?
    ensures var w := AddPlaylist(v, name).value;
      AddPlaylist(w, name) == Failure(PlaylistExists) &&
      forall k :: 0 <= k < |w| ==> (w[k].name == name <==> k == |v|)
  {
    var w := AddPlaylist(v, name).value;
    assert Names(w)[|v|] == name;
    forall k | 0 <= k < |v| ensures w[k].name != name {
      assert Names(v)[k] == v[k].name;
    }
  }

  lemma AddPlaylistKeepsWellFormed(v: seq<Entry>, name: string)
    requires WellFormed(v) && AddPlaylist(v, name).Success?
    ensures WellFormed(AddPlaylist(v, name).value)
  {
    var w := AddPlaylist(v, name).value;
    assert Names(w) == Names(v) + [name];
    forall k | 0 <= k < |w| ensures Unique(Titles(w[k].songs)) {
      if k < |v| {
        assert w[k] == v[k];
      } else {
        assert Titles(w[k].songs) == [];
      }
    }
  }

  /** With unique names, a deleted playlist can no longer be found. */
  lemma DeletePlaylistThenSearch(v: seq<Entry>, name: string)
    requires Unique(Names(v)) && DeletePlaylist(v, name).Success?
    ensures name !in Names(DeletePlaylist(v, name).value)
  {
    var w := DeletePlaylist(v, name).value;
    var i := IndexOf(Names(v), name);
    forall k | 0 <= k < |w| ensures Names(w)[k] != name {
      if k < i {
        assert w[k] == v[k];
      } else {
        assert w[k] == v[k + 1];
        assert Names(v)[i] == name && Names(v)[k + 1] == v[k + 1].name;
      }
    }
  }

  lemma DeletePlaylistKeepsWellFormed(v: seq<Entry>, name: string)
    requires WellFormed(v) && DeletePlaylist(v, name).Success?
    ensures WellFormed(DeletePlaylist(v, name).value)
  {
    var w := DeletePlaylist(v, name).value;
    var i := IndexOf(Names(v), name);
    // position in w -> position in v
    forall a, b | 0 <= a < b < |w| ensures Names(w)[a] != Names(w)[b] {
      var a' := if a < i then a else a + 1;
      var b' := if b < i then b else b + 1;
      assert w[a] == v[a'] && w[b] == v[b'];
      assert Names(v)[a'] != Names(v)[b'];
    }
    forall k | 0 <= k < |w| ensures Unique(Titles(w[k].songs)) {
      assert w[k] == v[if k < i then k else k + 1];
    }
  }

  lemma DeleteSongKeepsWellFormed(v: seq<Entry>, name: string, title: string)
    requires WellFormed(v) && DeleteSong(v, name, title).Success?
    ensures WellFormed(DeleteSong(v, name, title).value)
  {
    var w := DeleteSong(v, name, title).value;
    var i := IndexOf(Names(v), name);
    var j := IndexOf(Titles(v[i].songs), title);
    NamesAfterUpdate(v, i, w[i]);
    var s, t := v[i].songs, w[i].songs;
    forall a, b | 0 <= a < b < |t| ensures Titles(t)[a] != Titles(t)[b] {
      var a' := if a < j then a else a + 1;
      var b' := if b < j then b else b + 1;
      assert t[a] == s[a'] && t[b] == s[b'];
      assert Titles(s)[a'] != Titles(s)[b'];
    }
    forall k | 0 <= k < |w| ensures Unique(Titles(w[k].songs)) {
      if k != i { assert w[k] == v[k]; }
    }
  }

  lemma AddSongKeepsWellFormed(catalog: seq<Song>, v: seq<Entry>, name: string, title: string)
    requires WellFormed(v) && AddSong(catalog, v, name, title).Success?
    ensures WellFormed(AddSong(catalog, v, name, title).value)
  {
    var w := AddSong(catalog, v, name, title).value;
    var i := IndexOf(Names(v), name);
    var c := IndexOf(Titles(catalog), title);
    NamesAfterUpdate(v, i, w[i]);
    IndexOfAppended(v[i].songs, catalog[c]);
    var s := v[i].songs;
    var t := Titles(s + [catalog[c]]);
    forall a, b | 0 <= a < b < |t| ensures t[a] != t[b] {
      if b == |s| {
        assert t[a] == Titles(s)[a];
      } else {
        assert t[a] == Titles(s)[a] && t[b] == Titles(s)[b];
      }
    }
    forall k | 0 <= k < |w| ensures Unique(Titles(w[k].songs)) {
      if k != i { assert w[k] == v[k]; }
    }
  }

  // Only catalog songs ever enter a playlist: every operation keeps
  // `FromCatalog`.

  lemma AddPlaylistKeepsFromCatalog(catalog: seq<Song>, v: seq<Entry>, name: string)
    requires FromCatalog(catalog, v) && AddPlaylist(v, name).Success?
    ensures FromCatalog(catalog, AddPlaylist(v, name).value)
  {
    var w := AddPlaylist(v, name).value;
    forall k, m | 0 <= k < |w| && 0 <= m < |w[k].songs| ensures w[k].songs[m] in catalog {
      assert k < |v| && w[k] == v[k];
    }
  }

  lemma DeletePlaylistKeepsFromCatalog(catalog: seq<Song>, v: seq<Entry>, name: string)
    requires FromCatalog(catalog, v) && DeletePlaylist(v, name).Success?
    ensures FromCatalog(catalog, DeletePlaylist(v, name).value)
  {
    var w := DeletePlaylist(v, name).value;
    var i := IndexOf(Names(v), name);
    forall k, m | 0 <= k < |w| && 0 <= m < |w[k].songs| ensures w[k].songs[m] in catalog {
      assert w[k] == v[if k < i then k else k + 1];
    }
  }

  lemma AddSongKeepsFromCatalog(catalog: seq<Song>, v: seq<Entry>, name: string, title: string)
    requires FromCatalog(catalog, v) && AddSong(catalog, v, name, title).Success?
    ensures FromCatalog(catalog, AddSong(catalog, v, name, title).value)
  {
    var w := AddSong(catalog, v, name, title).value;
    var i := IndexOf(Names(v), name);
    forall k, m | 0 <= k < |w| && 0 <= m < |w[k].songs| ensures w[k].songs[m] in catalog {
      if k != i {
        assert w[k] == v[k];
      } else if m < |v[i].songs| {
        assert w[k].songs[m] == v[i].songs[m];
      }
    }
  }

  lemma DeleteSongKeepsFromCatalog(catalog: seq<Song>, v: seq<Entry>, name: string, title: string)
    requires FromCatalog(catalog, v) && DeleteSong(v, name, title).Success?
    ensures FromCatalog(catalog, DeleteSong(v, name, title).value)
  {
    var w := DeleteSong(v, name, title).value;
    var i := IndexOf(Names(v), name);
    var j := IndexOf(Titles(v[i].songs), title);
    forall k, m | 0 <= k < |w| && 0 <= m < |w[k].songs| ensures w[k].songs[m] in catalog {
      if k != i {
        assert w[k] == v[k];
      } else {
        assert w[k].songs[m] == v[i].songs[if m < j then m else m + 1];
      }
    }
  }

  /** Round trip: a song that was just added can be deleted again, and the
      delete gives back the collection as it was before the add. */
  lemma AddSongThenDeleteSong(catalog: seq<Song>, v: seq<Entry>, name: string, title: string)
    requires AddSong(catalog, v, name, title).Success?
    ensures DeleteSong(AddSong(catalog, v, name, title).value, name, title) == Success(v)
  {
    var w := AddSong(catalog, v, name, title).value;
    var i := IndexOf(Names(v), name);
    var c := IndexOf(Titles(catalog), title);
    var song := catalog[c];
    NamesAfterUpdate(v, i, w[i]);
    IndexOfAppended(v[i].songs, song);
    RemoveLast(v[i].songs, song);
    assert w[i := Entry(w[i].name, Remove(w[i].songs, |v[i].songs|))] == v;
  }
}
