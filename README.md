# SpotiCry playlist store, in Dafny

A model of the playlist store of the SpotiCry media server (`GO/music.go`):
songs, the catalog of every song the server found (`SUPERPLAYLIST`), named
playlists holding songs taken from that catalog, and the operations on
those playlists — searching a playlist, a song, or both; creating and deleting playlists; adding a catalog song to a playlist
and removing it again. It also models where a song's file lives
(`GetSongPath`) and the test that decides which directory entries the
catalog scan treats as `.mp3` files.

The project has four modules:

- `Music` (`music.dfy`) — `Song`, the error values with music.go's own
  messages, the first-match search `IndexOf` that every search loop of the
  source computes, the slice splice `Remove` (`append(s[:i], s[i+1:]...)`),
  and the `SearchSong` loop.
- `Collection` (`collection.dfy`) — the playlists as a value (a sequence of
  `Entry(name, songs)`), one function per store operation saying exactly
  what it does to that value and which error it returns, and the lemmas
  about them: creating twice fails, a created playlist is found, a deleted
  one is not, adding then deleting a song is a round trip, every operation
  keeps names and titles unique and keeps every song a catalog song.
- `Store` (`store.dfy`) — the mutable store as the source has it: a
  `Playlist` object whose song slice is replaced in place, and a
  `Playlists` object holding a sequence of pointers to playlists. Each
  method is proved to change the store exactly as the matching `Collection`
  function says, to return the same error, and to keep the store
  well-formed; `SmokeTest` replays the scenario at the end of music.go.
- `Files` (`files.dfy`) — `GetSongPath` with Go's `filepath.Join` and
  `filepath.Clean` (Unix separators) written out, the shape every song path
  has, its value for plain titles, and what a title starting with `../`
  does; and the `.mp3` suffix test of the catalog scan.

The catalog is a parameter (`catalog: seq<Song>`) of the operations that
read it; the model never changes it.

## Model

| member | source | states |
|---|---|---|
| Music.IndexOf | GO/music.go:41-46 | the result is -1 exactly when the key is absent; otherwise it is the position of the first occurrence (no earlier element matches) |
| Music.Remove | GO/music.go:78 | the splice drops exactly the element at `i`: one shorter, elements before `i` unchanged, elements after `i` shifted down by one |
| Music.RemoveLast | GO/music.go:98 | splicing out the last element of `s + [x]` gives back `s` |
| Music.IndexOfAppended | GO/music.go:111 | appending a song whose title is new makes that song the first match of its title |
| Music.SearchSong | GO/music.go:50-57 | the loop returns the first song with the title and its position, or no song, -1 and "song not found A" when none has it |
| Collection.AddPlaylist | GO/music.go:83-90 | succeeds exactly when no playlist has the name, appending an empty playlist after the unchanged old ones; otherwise fails with "playlist already exist" |
| Collection.DeletePlaylist | GO/music.go:73-80 | succeeds exactly when some playlist has the name; removes the first such playlist and keeps the order of the rest; otherwise fails with "playlist not found" |
| Collection.DeleteSong | GO/music.go:93-100 | succeeds exactly when the first playlist with the name holds the title; removes the first song with that title from it, keeping the order of its other songs and leaving every other playlist unchanged; otherwise fails with "song not found B" |
| Collection.AddSong | GO/music.go:103-116 | succeeds exactly when the catalog has the title, the playlist exists and does not hold the title; appends the first catalog song with that title and leaves every other playlist unchanged; fails with "song not found" when the catalog lacks the title and with "playlist not found" otherwise |
| Collection.AddSongFails | GO/music.go:104-115 | the order of the error checks: a title missing from the catalog gives "song not found" whatever the playlists are, a missing playlist or a title already present gives "playlist not found" |
| Collection.NamesAfterUpdate | GO/music.go:98 | replacing one playlist's songs leaves every playlist name in place |
| Collection.AddPlaylistThenSearch | GO/music.go:83-90 | after a successful create, searching for the name finds the new playlist, last and empty |
| Collection.AddPlaylistTwice | GO/music.go:83-90 | creating the same name twice: the second call fails with "playlist already exist" and exactly one playlist carries the name |
| Collection.DeletePlaylistThenSearch | GO/music.go:73-80 | with unique names, a deleted playlist can no longer be found |
| Collection.AddPlaylistKeepsWellFormed | GO/music.go:83-90 | creating a playlist keeps playlist names unique and titles unique within each playlist |
| Collection.DeletePlaylistKeepsWellFormed | GO/music.go:73-80 | deleting a playlist keeps names and titles unique |
| Collection.DeleteSongKeepsWellFormed | GO/music.go:93-100 | deleting a song keeps names and titles unique |
| Collection.AddSongKeepsWellFormed | GO/music.go:103-116 | adding a song keeps names and titles unique (the guard at line 109 refuses a title already present) |
| Collection.AddPlaylistKeepsFromCatalog | GO/music.go:83-90 | creating a playlist keeps every song of every playlist a catalog song |
| Collection.DeletePlaylistKeepsFromCatalog | GO/music.go:73-80 | deleting a playlist keeps every song a catalog song |
| Collection.AddSongKeepsFromCatalog | GO/music.go:103-116 | adding a song keeps every song a catalog song: the one appended is taken from the catalog |
| Collection.DeleteSongKeepsFromCatalog | GO/music.go:93-100 | deleting a song keeps every song a catalog song |
| Collection.AddSongThenDeleteSong | GO/music.go:93-116 | adding a song and then deleting it by the same title gives back exactly the playlists as they were |
| Store.Playlist.constructor | GO/music.go:86 | a new playlist has the given name and no songs |
| Store.Playlists.constructor | GO/music.go:32 | an empty store is well-formed and holds no playlists |
| Store.Playlists.Distinct | GO/music.go:98 | in a well-formed store no two positions point to the same playlist object, so writing through one pointer changes only that playlist |
| Store.Playlists.SearchPlaylist | GO/music.go:40-47 | the loop returns the pointer and position of the first playlist with the name, or null, -1 and "playlist not found" |
| Store.Playlists.FullSearch | GO/music.go:60-70 | three outcomes: no playlist (null, -1, -1, "playlist not found"); a playlist without the song (the playlist, -1, "song not found B"); both, with the first matching song and its position |
| Store.Playlists.DeletePlaylist | GO/music.go:73-80 | the new contents and the error are those of Collection.DeletePlaylist on the old contents; on success the pointer sequence is the old one with the first pointer to a playlist of that name spliced out, on failure it is unchanged; returns the store on success and null on failure; the store stays well-formed |
| Store.Playlists.AddPlaylist | GO/music.go:83-90 | the new contents and the error are those of Collection.AddPlaylist; on success the last pointer is a freshly allocated playlist and the earlier pointers are unchanged, on failure the pointer sequence is unchanged |
| Store.Playlists.DeleteSong | GO/music.go:93-100 | the new contents and the error are those of Collection.DeleteSong, the pointer sequence itself is unchanged, and the returned pointer is the playlist found (also on failure) or null |
| Store.Playlists.AddSong | GO/music.go:103-116 | the new contents and the error are those of Collection.AddSong, the pointer sequence is unchanged, and the returned pointer is the updated playlist on success and null on failure |
| Store.SmokeTest | GO/music.go:200-246 | on a fresh store and a catalog holding "In the End": create "MyPlaylist", add the song, find the playlist, find the song, delete the song, delete the playlist — all six steps succeed and the store ends empty |
| Files.ReplaceBackslashes | GO/music.go:120 | the result has no backslash; it is as long as the input, and every character that was not a backslash is kept in its place |
| Files.Clean | GO/music.go:120 | Go's `filepath.Clean` on Unix paths: never empty ("." stands for the empty path), and a rooted path stays rooted |
| Files.ResolveNonEmpty | GO/music.go:120 | cleaning never keeps an empty element, so a non-empty result joins to a non-empty string |
| Files.Join | GO/music.go:120 | Go's `filepath.Join` of two elements: empty exactly when both elements are empty; joining onto a rooted directory gives a rooted path |
| Files.GetSongPath | GO/music.go:119-121 | the path is non-empty and has no backslash; its full shape is stated by `Files.GetSongPathShape`, `Files.GetSongPathPlain` and `Files.GetSongPathEscapes` |
| Files.SplitFirst | GO/music.go:120 | splitting `a + "/" + b` with a separator-free `a` yields `a` followed by the pieces of `b` |
| Files.SplitLast | GO/music.go:120 | the last piece of a path ends with any separator-free suffix of the path |
| Files.ResolveLast | GO/music.go:120 | cleaning keeps a final element that is not empty, "." or "..", as the last element |
| Files.JoinSlashLast | GO/music.go:120 | joining pieces with '/' ends with the last piece |
| Files.CleanRootedEndsWith | GO/music.go:120 | cleaning a rooted path gives a rooted path that keeps a separator-free suffix not ending in '.' |
| Files.JoinRootedEndsWith | GO/music.go:120 | joining onto a rooted directory gives a rooted path that keeps such a suffix of the file name |
| Files.ReplaceKeepsShape | GO/music.go:120 | replacing backslashes keeps a leading '/' and a backslash-free suffix, and leaves no backslash |
| Files.GetSongPathShape | GO/music.go:119-121 | for every title the path is absolute, has no backslash, and ends in ".mp3" |
| Files.SplitRooted | GO/music.go:120 | "/a/b" with separator-free `a`, `b` splits into "", a, b |
| Files.ResolveTwo | GO/music.go:120 | cleaning the elements "", a, b of a rooted path keeps a and b |
| Files.ResolveUp | GO/music.go:120 | cleaning the elements "", a, "..", b of a rooted path keeps only b |
| Files.CleanTwo | GO/music.go:120 | "/a/b" with separator-free, non-dot `a`, `b` is already clean |
| Files.CleanUp | GO/music.go:120 | in "/a/../b" the ".." cancels `a`, leaving "/b" |
| Files.GetSongPathPlain | GO/music.go:119-121 | a title without '/' or '\\' lands directly in the songs directory: "/mp3_files/" + title + ".mp3" |
| Files.GetSongPathEscapes | GO/music.go:119-121 | a title "../name" names "/name.mp3", a file outside the songs directory |
| Files.ToLower | GO/music.go:171 | `strings.ToLower` on ASCII: same length, each 'A'-'Z' becomes the matching 'a'-'z', every other character is kept, and no 'A'-'Z' is left in the result |
| Files.IsMp3Entry | GO/music.go:171 | an entry is taken exactly when it is not a directory and its name ends in '.', 'm' or 'M', 'p' or 'P', '3' |

## Left out

- `ProcessMP3File` (GO/music.go:125-162): opens a file, parses ID3v2 tags and decodes MP3 frames through foreign libraries; file I/O and those libraries are not part of this model.
- `GetMP3Data` (GO/music.go:164-191): the recursive `filepath.Walk` over the file system is I/O; only its per-entry test (line 171) is modelled, as `Files.IsMp3Entry`. The catalog it builds is a parameter of the model.
- `main` (GO/music.go:193-248): its printing is left out; its sequence of calls is modelled as `Store.SmokeTest`.
- The server (`server.go`), the clients (`client.go`, `client.cs`) and `main.go`: the network protocol, the command dispatcher and the playback client are not part of this model.
- Song length is a whole number of seconds (`int`); the source holds it as a float32 computed by division. Nothing in the modelled operations reads it.
- In the source the global store `GENPLAYLISTS` starts out holding a pointer to the catalog itself, so `DeleteSong("SUPERPLAYLIST", t)` would splice the catalog, and `AddSong("SUPERPLAYLIST", t)` always fails because the catalog holds the title. The model's store starts empty, like `metaPLS` (server.go:23), not holding the catalog as `GENPLAYLISTS` does (music.go:36), and the catalog is an immutable parameter, so it does not capture that aliasing.
- `SearchSong` and `FullSearch` return `&song`, a pointer to a copy of the loop variable; the model returns the song as a value (`Option<Song>`).
- `AddSong` prints a line to standard output on success (line 110); output is left out.
- `Files.Join` and `Files.Clean`: Go's `filepath` behaves differently on Windows (volume names, '\\' as a separator); only the Unix behaviour is modelled, which is why `ReplaceBackslashes` is applied after `Join` as the source does.
- `Files.IsMp3Entry`: `strings.ToLower` is modelled for ASCII letters only; non-ASCII case mappings are not modelled.
- Adding a song the playlist already holds fails with "playlist not found" (music.go:115), the same error as a missing playlist; the search helpers fail with "song not found A" / "song not found B" as music.go spells them. The model keeps these messages as they are.
