/** The two string helpers of GO/music.go that deal with files: the path of a
    song inside the songs directory, and the test the catalog scan applies
    to each directory entry. Paths use '/' as the only separator, as
    Go's path/filepath does on Unix. */
module Files {

  /** `SONGSPATH` in music.go. */
  const SongsPath: string := "/mp3_files"

  const Mp3Suffix: string := ".mp3"

  predicate EndsWith(s: string, x: string) {
    |x| <= |s| && s[|s| - |x|..] == x
  }

  /** The '/'-separated elements of `s`, as `filepath.Clean` treats them
      while it scans the path. */
  function Split(s: string): (r: seq<string>)
    ensures |r| >= 1
  {
    if |s| == 0 then [""]
    else
      var rest := Split(s[1..]);
      if s[0] == '/' then [""] + rest else [[s[0]] + rest[0]] + rest[1..]
  }

  /** The elements `filepath.Clean` keeps, written out again with '/'
      between them. */
  function JoinSlash(parts: seq<string>): string
    requires |parts| >= 1
  {
    if |parts| == 1 then parts[0] else parts[0] + "/" + JoinSlash(parts[1..])
  }

  /** One step of lexical cleaning: skip an empty or "." element, let ".."
      cancel the element before it (or vanish at the root of a rooted path),
      keep anything else. */
  function Step(kept: seq<string>, e: string, rooted: bool): seq<string> {
    if e == "" || e == "." then kept
    else if e == ".." then
      if |kept| > 0 && kept[|kept| - 1] != ".." then kept[..|kept| - 1]
      else if rooted then kept
      else kept + [".."]
    else kept + [e]
  }

  function Resolve(elems: seq<string>, kept: seq<string>, rooted: bool): seq<string>
    decreases |elems|
  {
    if |elems| == 0 then kept else Resolve(elems[1..], Step(kept, elems[0], rooted), rooted)
  }

  /** Cleaning never keeps an empty element, so what it keeps joins to a
      non-empty string. */
  lemma {:induction false} ResolveNonEmpty(elems: seq<string>, kept: seq<string>, rooted: bool)
    requires forall k :: 0 <= k < |kept| ==> kept[k] != ""
    ensures var r := Resolve(elems, kept, rooted);
      (forall k :: 0 <= k < |r| ==> r[k] != "") && (|r| > 0 ==> |JoinSlash(r)| > 0)
    decreases |elems|
  {
    var r := Resolve(elems, kept, rooted);
    if |elems| == 0 {
      if |r| > 0 { JoinSlashFirst(r); }
    } else {
      var next := Step(kept, elems[0], rooted);
      assert forall k :: 0 <= k < |next| ==> next[k] != "";
      ResolveNonEmpty(elems[1..], next, rooted);
    }
  }

  lemma JoinSlashFirst(parts: seq<string>)
    requires |parts| >= 1 && parts[0] != ""
    ensures |JoinSlash(parts)| > 0
  {
  }

  /** `filepath.Clean`: the shortest lexically equivalent path. It is never
      empty ("." stands for the empty path), and a rooted path stays rooted. */
  function Clean(s: string): (r: string)
    ensures |r| > 0
    ensures |s| > 0 && s[0] == '/' ==> r[0] == '/'
  {
    var rooted := |s| > 0 && s[0] == '/';
    var kept := Resolve(Split(s), [], rooted);
    ResolveNonEmpty(Split(s), [], rooted);
    if |kept| == 0 then (if rooted then "/" else ".")
    else if rooted then "/" + JoinSlash(kept)
    else JoinSlash(kept)
  }

  /** `filepath.Join(dir, file)`: empty elements are ignored, the rest are
      joined with '/' and cleaned. */
  function Join(dir: string, file: string): (r: string)
    ensures r == "" <==> dir == "" && file == ""
    ensures |dir| > 0 && dir[0] == '/' ==> |r| > 0 && r[0] == '/'
  {
    if dir != "" then Clean(dir + "/" + file)
    else if file != "" then Clean(file)
    else ""
  }

  /** `strings.Replace(s, "\\", "/", -1)`. */
  function ReplaceBackslashes(s: string): (r: string)
    ensures |r| == |s| && '\\' !in r
    ensures forall k :: 0 <= k < |s| && s[k] != '\\' ==> r[k] == s[k]
    ensures forall k :: 0 <= k < |s| && s[k] == '\\' ==> r[k] == '/'
  {
    seq(|s|, k requires 0 <= k < |s| => if s[k] == '\\' then '/' else s[k])
  }

  /** `GetSongPath`: where the file of the song titled `title` lives. */
  function GetSongPath(title: string): (p: string)
    ensures |p| > 0 && '\\' !in p
  {
    ReplaceBackslashes(Join(SongsPath, title + Mp3Suffix))
  }

  /** An element that cleaning keeps as it is. */
  predicate Regular(e: string) {
    e != "" && e != "." && e != ".."
  }

  lemma ResolveOf(elems: seq<string>, kept: seq<string>, rooted: bool)
    requires |elems| >= 1
    ensures Resolve(elems, kept, rooted) == Resolve(elems[1..], Step(kept, elems[0], rooted), rooted)
  {
  }

  lemma {:induction false} SplitNoSeparator(a: string)
    requires '/' !in a
    ensures Split(a) == [a]
  {
    if |a| > 0 {
      assert '/' !in a[1..];
      SplitNoSeparator(a[1..]);
      assert [a[0]] + a[1..] == a;
    }
  }

  lemma {:induction false} SplitFirst(a: string, b: string)
    requires '/' !in a
    ensures Split(a + "/" + b) == [a] + Split(b)
  {
    var s := a + "/" + b;
    if |a| == 0 {
      assert s[1..] == b;
    } else {
      assert s[1..] == a[1..] + "/" + b;
      assert '/' !in a[1..];
      SplitFirst(a[1..], b);
      assert [a[0]] + a[1..] == a;
    }
  }

  /** The last piece of `s` ends with any separator-free suffix of `s`. */
  lemma {:induction false} SplitLast(s: string, x: string)
    requires EndsWith(s, x) && '/' !in x
    ensures EndsWith(Split(s)[|Split(s)| - 1], x)
    decreases |s|
  {
    if |s| == |x| {
      assert s == x;
      SplitNoSeparator(s);
    } else {
      var rest := Split(s[1..]);
      assert s[1..][|s[1..]| - |x|..] == s[|s| - |x|..];
      SplitLast(s[1..], x);
      var e := rest[|rest| - 1];
      if s[0] != '/' && |rest| == 1 {
        assert Split(s) == [[s[0]] + e];
        assert ([s[0]] + e)[|[s[0]] + e| - |x|..] == e[|e| - |x|..];
      }
    }
  }

  /** A regular last element survives cleaning and ends what is kept. */
  lemma {:induction false} ResolveLast(elems: seq<string>, kept: seq<string>, rooted: bool)
    requires |elems| >= 1 && Regular(elems[|elems| - 1])
    ensures var r := Resolve(elems, kept, rooted); |r| >= 1 && r[|r| - 1] == elems[|elems| - 1]
    decreases |elems|
  {
    if |elems| > 1 {
      assert elems[1..][|elems[1..]| - 1] == elems[|elems| - 1];
      ResolveLast(elems[1..], Step(kept, elems[0], rooted), rooted);
    }
  }

  lemma {:induction false} JoinSlashLast(parts: seq<string>)
    requires |parts| >= 1
    ensures EndsWith(JoinSlash(parts), parts[|parts| - 1])
  {
    if |parts| > 1 {
      JoinSlashLast(parts[1..]);
      var tail := JoinSlash(parts[1..]);
      var e := parts[|parts| - 1];
      assert parts[1..][|parts[1..]| - 1] == e;
      var whole := parts[0] + "/" + tail;
      assert whole[|whole| - |e|..] == tail[|tail| - |e|..];
    }
  }

  lemma EndsWithTrans(a: string, b: string, c: string)
    requires EndsWith(a, b) && EndsWith(b, c)
    ensures EndsWith(a, c)
  {
    assert a[|a| - |c|..] == a[|a| - |b|..][|b| - |c|..];
  }

  /** Cleaning a rooted path keeps its root and keeps a separator-free,
      non-dot suffix. */
  lemma CleanRootedEndsWith(s: string, x: string)
    requires |s| > 0 && s[0] == '/'
    requires EndsWith(s, x) && '/' !in x && |x| > 0 && x[|x| - 1] != '.'
    ensures var c := Clean(s); |c| > 0 && c[0] == '/' && EndsWith(c, x)
  {
    SplitLast(s, x);
    var elems := Split(s);
    var e := elems[|elems| - 1];
    assert e[|e| - 1] == x[|x| - 1];
    assert Regular(e);
    ResolveLast(elems, [], true);
    var kept := Resolve(elems, [], true);
    JoinSlashLast(kept);
    var j := JoinSlash(kept);
    var c := "/" + j;
    assert Clean(s) == c;
    assert EndsWith(c, j) by {
      assert c[|c| - |j|..] == j;
    }
    EndsWithTrans(c, j, e);
    EndsWithTrans(c, e, x);
  }

  /** Joining onto a rooted directory gives a rooted path that keeps a
      separator-free, non-dot suffix of the file name. */
  lemma JoinRootedEndsWith(dir: string, file: string, x: string)
    requires |dir| > 0 && dir[0] == '/'
    requires EndsWith(file, x) && '/' !in x && |x| > 0 && x[|x| - 1] != '.'
    ensures var c := Join(dir, file); |c| > 0 && c[0] == '/' && EndsWith(c, x)
  {
    var s := dir + "/" + file;
    assert s[0] == '/';
    assert EndsWith(s, x) by {
      assert s[|s| - |x|..] == file[|file| - |x|..];
    }
    CleanRootedEndsWith(s, x);
  }

  /** Replacing backslashes keeps the first character when it is '/' and
      keeps a backslash-free suffix. */
  lemma ReplaceKeepsShape(c: string, x: string)
    requires |c| > 0 && c[0] == '/' && EndsWith(c, x) && '\\' !in x
    ensures var p := ReplaceBackslashes(c); |p| > 0 && p[0] == '/' && '\\' !in p && EndsWith(p, x)
  {
    var p := ReplaceBackslashes(c);
    assert p[|p| - |x|..] == x by {
      forall k | |p| - |x| <= k < |p| ensures p[k] == c[k] {
        assert c[k] == x[k - (|c| - |x|)];
      }
    }
  }

  /** The path of any title is absolute, has no backslash, and names an .mp3
      file. */
  lemma GetSongPathShape(title: string)
    ensures var p := GetSongPath(title);
      |p| > 0 && p[0] == '/' && '\\' !in p && EndsWith(p, Mp3Suffix)
  {
    var file := title + Mp3Suffix;
    assert EndsWith(file, Mp3Suffix) by {
      assert file[|file| - |Mp3Suffix|..] == Mp3Suffix;
    }
    JoinRootedEndsWith(SongsPath, file, Mp3Suffix);
    ReplaceKeepsShape(Join(SongsPath, file), Mp3Suffix);
  }

  lemma SplitRooted(a: string, b: string)
    requires '/' !in a && '/' !in b
    ensures Split("/" + a + "/" + b) == ["", a, b]
  {
    assert "/" + a + "/" + b == "" + "/" + (a + "/" + b);
    SplitFirst("", a + "/" + b);
    SplitFirst(a, b);
    SplitNoSeparator(b);
  }

  /** A rooted path whose elements resolve to a non-empty `kept` cleans to
      "/" followed by `kept` joined with '/'. */
  lemma CleanRooted(s: string, kept: seq<string>)
    requires |s| > 0 && s[0] == '/' && |kept| > 0
    requires Resolve(Split(s), [], true) == kept
    ensures Clean(s) == "/" + JoinSlash(kept)
  {
  }

  lemma ResolveTwo(a: string, b: string)
    requires Regular(a) && Regular(b)
    ensures Resolve(["", a, b], [], true) == [a, b]
  {
    ResolveOf(["", a, b], [], true);
    assert ["", a, b][1..] == [a, b];
    ResolveOf([a, b], [], true);
    assert [a, b][1..] == [b];
    ResolveOf([b], [a], true);
  }

  lemma ResolveUp(a: string, b: string)
    requires Regular(a) && Regular(b)
    ensures Resolve(["", a, "..", b], [], true) == [b]
  {
    var elems := ["", a, "..", b];
    ResolveOf(elems, [], true);
    assert elems[1..] == [a, "..", b];
    ResolveOf([a, "..", b], [], true);
    assert [a, "..", b][1..] == ["..", b];
    ResolveOf(["..", b], [a], true);
    assert ["..", b][1..] == [b];
    ResolveOf([b], [], true);
  }

  /** "/a/b" with regular, separator-free a and b is already clean. */
  lemma CleanTwo(a: string, b: string)
    requires '/' !in a && '/' !in b && Regular(a) && Regular(b)
    ensures Clean("/" + a + "/" + b) == "/" + a + "/" + b
  {
    var s := "/" + a + "/" + b;
    SplitRooted(a, b);
    ResolveTwo(a, b);
    CleanRooted(s, [a, b]);
    assert JoinSlash([a, b]) == a + "/" + JoinSlash([b]);
    assert "/" + (a + "/" + b) == s;
  }

  /** In "/a/../b" the ".." cancels a. */
  lemma CleanUp(a: string, b: string)
    requires '/' !in a && '/' !in b && Regular(a) && Regular(b)
    ensures Clean("/" + a + "/../" + b) == "/" + b
  {
    var s := "/" + a + "/../" + b;
    assert s == "" + "/" + (a + "/" + (".." + "/" + b));
    SplitFirst("", a + "/" + (".." + "/" + b));
    SplitFirst(a, ".." + "/" + b);
    SplitFirst("..", b);
    SplitNoSeparator(b);
    assert Split(s) == ["", a, "..", b];
    ResolveUp(a, b);
    CleanRooted(s, [b]);
  }

  /** A title without separators lands directly in the songs directory. */
  lemma GetSongPathPlain(title: string)
    requires '/' !in title && '\\' !in title
    ensures GetSongPath(title) == SongsPath + "/" + title + Mp3Suffix
  {
    var dir := "mp3_files";
    var file := title + Mp3Suffix;
    assert '/' !in file && '\\' !in file;
    assert Regular(file) by { assert |file| >= 4; }
    assert SongsPath == "/" + dir;
    CleanTwo(dir, file);
    var s := "/" + dir + "/" + file;
    assert Join(SongsPath, file) == s;
    assert '\\' !in s;
    assert ReplaceBackslashes(s) == s;
  }

  /** A title that starts with "../" leaves the songs directory: the path
      names a file in the parent of the songs directory. */
  lemma GetSongPathEscapes(name: string)
    requires '/' !in name && '\\' !in name
    ensures GetSongPath("../" + name) == "/" + name + Mp3Suffix
  {
    var dir := "mp3_files";
    var file := name + Mp3Suffix;
    assert '/' !in file && '\\' !in file;
    assert Regular(file) by { assert |file| >= 4; }
    assert SongsPath + "/" + ("../" + name + Mp3Suffix) == "/" + dir + "/../" + file;
    CleanUp(dir, file);
    var c := "/" + file;
    assert Join(SongsPath, "../" + name + Mp3Suffix) == c;
    assert '\\' !in c;
    assert ReplaceBackslashes(c) == c;
  }

  /** ASCII lower-casing, as `strings.ToLower` does on ASCII letters. */
  function ToLower(s: string): (r: string)
    ensures |r| == |s|
    ensures forall k :: 0 <= k < |s| && !('A' <= s[k] <= 'Z') ==> r[k] == s[k]
    ensures forall k :: 0 <= k < |s| && 'A' <= s[k] <= 'Z' ==> r[k] as int == s[k] as int - 'A' as int + 'a' as int
    ensures forall k :: 0 <= k < |r| ==> !('A' <= r[k] <= 'Z')
  {
    seq(|s|, k requires 0 <= k < |s| => if 'A' <= s[k] <= 'Z' then (s[k] - 'A' + 'a') as char else s[k])
  }

  /** The test the scan in `GetMP3Data` applies to a directory entry: a file
      (not a directory) whose lower-cased name ends in ".mp3". Spelled out,
      the name ends in '.', 'm' or 'M', 'p' or 'P', '3'. */
  function IsMp3Entry(name: string, isDir: bool): (b: bool)
    ensures b <==> !isDir && |name| >= 4 && name[|name| - 4] == '.'
                   && (name[|name| - 3] == 'm' || name[|name| - 3] == 'M')
                   && (name[|name| - 2] == 'p' || name[|name| - 2] == 'P')
                   && name[|name| - 1] == '3'
  {
    var low := ToLower(name);
    assert |low| >= 4 ==> low[|low| - 4..] == [low[|low| - 4], low[|low| - 3], low[|low| - 2], low[|low| - 1]];
    !isDir && EndsWith(low, Mp3Suffix)
  }
}
