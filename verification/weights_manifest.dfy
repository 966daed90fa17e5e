/**
 The manifest of a model-weights cache: `build` lists every regular file with its hash and size,
 `verify` accepts a manifest only when it describes the cache exactly and returns a digest of it.
 Proved: what acceptance says about the cache, that the digest names the cache's content and nothing
 else about the manifest, and exactly which caches `verify` accepts `build`'s own manifest for.
 */
module WeightsManifest {
  import opened Wrappers
  import opened Ordering
  import opened Texts

  const FONT_PATH := "static/fonts/GoNotoCurrent-Regular.ttf"
  const FONT_HASH := "882afbab965608c2d2bc627fd8016b962aa5a6be2d358f9de24a7b5967c5632e"
  const FONT_SIZE := 14_700_060

  datatype Node = RegularFile(hash: string, size: nat) | FileLink(hash: string, size: nat) | OtherLink | Directory

  /** A cache directory: the paths a recursive listing yields, in some order, and what the file system
      finds at any relative path, listed or not. */
  datatype Cache = Cache(paths: seq<string>, at: string -> Option<Node>)

  datatype Entry = Entry(path: string, hash: string, size: int)

  /** A manifest entry as parsed; one of the wrong shape is `Malformed`. */
  datatype RawEntry = Malformed | RawEntry(path: string, hash: string, size: int)

  /** Library functions: reading a hash text (trimmed, case-folded, checked), whether a relative path is
      safe, and the hash of the canonical encoding. */
  datatype Library = Library(readHash: string -> Option<string>, safe: string -> bool, encode: seq<Entry> -> string)

  datatype Failure =
    | CacheEmpty | OutputInside | OutputExists | ContainsLink | NoFiles
    | ListEmpty | EntryRefused | FileMissing | IdentityMismatch | FontMissing | NotExact

  // ---------------------------------------------------------------- the cache

  predicate IsFile(node: Option<Node>) {
    node.Some? && (node.value.RegularFile? || node.value.FileLink?)
  }

  predicate IsLink(node: Option<Node>) {
    node.Some? && (node.value.FileLink? || node.value.OtherLink?)
  }

  /** A listing is duplicate-free, finds what it lists, and yields safe paths; computed hashes read back. */
  ghost predicate ValidCache(lib: Library, c: Cache) {
    && (forall i, j :: 0 <= i < j < |c.paths| ==> c.paths[i] != c.paths[j])
    && (forall p :: p in c.paths ==> c.at(p).Some? && lib.safe(p) && p != "")
    && (forall p :: IsFile(c.at(p)) ==> lib.readHash(c.at(p).value.hash) == Some(c.at(p).value.hash))
  }

  predicate IsEntryOf(c: Cache, e: Entry) {
    IsFile(c.at(e.path)) && e == Entry(e.path, c.at(e.path).value.hash, c.at(e.path).value.size)
  }

  function FileEntry(c: Cache, p: string): (e: Entry)
    requires IsFile(c.at(p))
    ensures IsEntryOf(c, e) && e.path == p
  {
    Entry(p, c.at(p).value.hash, c.at(p).value.size)
  }

  // ---------------------------------------------------------------- sorting by path

  function InsertEntry(e: Entry, s: seq<Entry>): (r: seq<Entry>)
    ensures forall x :: x in r <==> x == e || x in s
  {
    if s == [] then [e]
    else if StrLess(e.path, s[0].path) then [e] + s
    else
      assert s == [s[0]] + s[1..];
      [s[0]] + InsertEntry(e, s[1..])
  }

  function SortByPath(s: seq<Entry>): (r: seq<Entry>)
    ensures forall x :: x in r <==> x in s
  {
    if s == [] then []
    else
      assert s == [s[0]] + s[1..];
      InsertEntry(s[0], SortByPath(s[1..]))
  }

  function Paths(s: seq<Entry>): (r: seq<string>)
    ensures |r| == |s| && forall i :: 0 <= i < |s| ==> r[i] == s[i].path
  {
    seq(|s|, i requires 0 <= i < |s| => s[i].path)
  }

  ghost predicate DistinctPaths(s: seq<Entry>) {
    forall i, j :: 0 <= i < j < |s| ==> s[i].path != s[j].path
  }

  lemma {:induction false} InsertSorted(e: Entry, s: seq<Entry>)
    requires Ascending(Paths(s)) && forall x :: x in s ==> x.path != e.path
    ensures Ascending(Paths(InsertEntry(e, s)))
  {
    if s == [] {
    } else if StrLess(e.path, s[0].path) {
      forall j | 0 <= j < |s|
        ensures StrLess(e.path, s[j].path)
      {
        if j > 0 {
          assert StrLess(Paths(s)[0], Paths(s)[j]);
          StrLessTransitive(e.path, s[0].path, s[j].path);
        }
      }
    } else {
      StrLessTotal(e.path, s[0].path);
      assert s[0] in s;
      var tail := s[1..];
      assert Ascending(Paths(tail)) by {
        forall i, j | 0 <= i < j < |tail|
          ensures StrLess(Paths(tail)[i], Paths(tail)[j])
        {
          assert StrLess(Paths(s)[i + 1], Paths(s)[j + 1]);
        }
      }
      InsertSorted(e, tail);
      InsertedTailAfter(e, s);
    }
  }

  lemma {:induction false} InsertedTailAfter(e: Entry, s: seq<Entry>)
    requires s != [] && Ascending(Paths(s)) && StrLess(s[0].path, e.path)
    requires Ascending(Paths(InsertEntry(e, s[1..])))
    ensures Ascending(Paths([s[0]] + InsertEntry(e, s[1..])))
  {
    var tail := InsertEntry(e, s[1..]);
    forall j | 0 <= j < |tail|
      ensures StrLess(s[0].path, tail[j].path)
    {
      assert tail[j] in tail;
      if tail[j] != e {
        var i :| 0 <= i < |s[1..]| && s[1..][i] == tail[j];
        assert StrLess(Paths(s)[0], Paths(s)[i + 1]);
      }
    }
    var all := [s[0]] + tail;
    forall i, j | 0 <= i < j < |all|
      ensures StrLess(Paths(all)[i], Paths(all)[j])
    {
      if i > 0 { assert StrLess(Paths(tail)[i - 1], Paths(tail)[j - 1]); }
    }
  }

  lemma {:induction false} SortIsSorted(s: seq<Entry>)
    requires DistinctPaths(s)
    ensures Ascending(Paths(SortByPath(s)))
  {
    if s != [] {
      var tail := s[1..];
      assert forall i :: 0 <= i < |tail| ==> tail[i] == s[i + 1];
      SortIsSorted(tail);
      forall x | x in SortByPath(tail)
        ensures x.path != s[0].path
      {
        var i :| 0 <= i < |tail| && tail[i] == x;
        assert s[i + 1] == x;
      }
      InsertSorted(s[0], SortByPath(tail));
    }
  }

  /** The sorted list is determined by the entries: neither their order nor anything else matters. */
  lemma {:induction false} SortedListIsDetermined(a: seq<Entry>, b: seq<Entry>)
    requires DistinctPaths(a) && DistinctPaths(b) && forall x :: x in a <==> x in b
    ensures SortByPath(a) == SortByPath(b)
  {
    SortIsSorted(a);
    SortIsSorted(b);
    var s, t := SortByPath(a), SortByPath(b);
    forall p
      ensures p in Paths(s) <==> p in Paths(t)
    {
      SamePaths(s, t, p);
      SamePaths(t, s, p);
    }
    AscendingIsDetermined(Paths(s), Paths(t));
    forall i | 0 <= i < |s|
      ensures |s| == |t| && s[i] == t[i]
    {
      assert |Paths(s)| == |Paths(t)|;
      assert s[i] in s && s[i] in t && t[i] in t;
      var j :| 0 <= j < |t| && t[j] == s[i];
      assert Paths(t)[j] == Paths(t)[i];
      AscendingApart(Paths(t), i, j);
    }
    assert |Paths(s)| == |Paths(t)|;
  }

  lemma {:induction false} SamePaths(s: seq<Entry>, t: seq<Entry>, p: string)
    requires forall x :: x in s ==> x in t
    ensures p in Paths(s) ==> p in Paths(t)
  {
    if p in Paths(s) {
      var i :| 0 <= i < |s| && Paths(s)[i] == p;
      assert s[i] in t;
      var j :| 0 <= j < |t| && t[j] == s[i];
      assert Paths(t)[j] == p;
    }
  }

  lemma {:induction false} AscendingApart(s: seq<string>, i: nat, j: nat)
    requires Ascending(s) && i < |s| && j < |s| && s[i] == s[j]
    ensures i == j
  {
    StrLessIrreflexive(s[i]);
    assert !StrLess(s[i], s[j]) && !StrLess(s[j], s[i]);
  }

  // ---------------------------------------------------------------- verifying

  /** The entry `verify` reads: text fields trimmed, the hash folded. */
  function ReadEntry(lib: Library, raw: RawEntry): Option<Entry> {
    if raw.Malformed? || Strip(raw.path) == "" || !lib.safe(Strip(raw.path)) || raw.size < 0 then None
    else match lib.readHash(raw.hash)
         case None => None
         case Some(hash) => Some(Entry(Strip(raw.path), hash, raw.size))
  }

  const FONT := Entry(FONT_PATH, FONT_HASH, FONT_SIZE)

  ghost predicate AllRead(lib: Library, files: seq<RawEntry>, entries: seq<Entry>) {
    |entries| == |files| && forall i :: 0 <= i < |files| ==> ReadEntry(lib, files[i]) == Some(entries[i])
  }

  /** The manifest's entries are the cache's files, each once, none a link, and the font is among them. */
  ghost predicate Describes(c: Cache, entries: seq<Entry>) {
    && DistinctPaths(entries)
    && (forall e :: e in entries ==> IsEntryOf(c, e) && !IsLink(c.at(e.path)))
    && (forall p :: p in c.paths && IsFile(c.at(p)) <==> p in Paths(entries))
    && FONT in entries
  }

  /** Accepts exactly the manifests whose entries describe the cache; the result is the digest of the
      entries sorted by path. */
  method VerifyManifest(lib: Library, c: Cache, files: seq<RawEntry>) returns (digest: Result<string, Failure>)
    ensures digest.Ok? <==> files != [] && exists entries :: AllRead(lib, files, entries) && Describes(c, entries)
    ensures digest.Ok? ==>
              exists entries :: AllRead(lib, files, entries) && Describes(c, entries) && digest == Ok(lib.encode(SortByPath(entries)))
  {
    if files == [] {
      return Err(ListEmpty);
    }
    var expected: set<string> := {};
    var canonical: seq<Entry> := [];
    for i := 0 to |files|
      invariant AllRead(lib, files[..i], canonical)
      invariant DistinctPaths(canonical)
      invariant forall e :: e in canonical ==> IsEntryOf(c, e) && !IsLink(c.at(e.path))
      invariant forall p :: p in expected <==> p in Paths(canonical)
    {
      var read := ReadEntry(lib, files[i]);
      if read.None? {
        forall entries ensures !AllRead(lib, files, entries) {}
        return Err(EntryRefused);
      }
      var entry := read.value;
      if entry.path in expected {
        RepeatedPathRefused(lib, c, files, i, canonical, entry);
        return Err(EntryRefused);
      }
      if IsLink(c.at(entry.path)) || !IsFile(c.at(entry.path)) {
        WrongEntryRefused(lib, c, files, i, entry);
        return Err(FileMissing);
      }
      if !IsEntryOf(c, entry) {
        WrongEntryRefused(lib, c, files, i, entry);
        return Err(IdentityMismatch);
      }
      PathsSnoc(canonical, entry);
      expected := expected + {entry.path};
      canonical := canonical + [entry];
    }
    assert files[..|files|] == files;
    forall entries | AllRead(lib, files, entries)
      ensures entries == canonical
    {
      assert forall i :: 0 <= i < |files| ==> Some(entries[i]) == Some(canonical[i]);
    }
    if FONT !in canonical {
      return Err(FontMissing);
    }
    var actual := set p | p in c.paths && IsFile(c.at(p));
    if actual != expected {
      return Err(NotExact);
    }
    digest := Ok(lib.encode(SortByPath(canonical)));
  }

  lemma {:induction false} PathsSnoc(s: seq<Entry>, e: Entry)
    ensures Paths(s + [e]) == Paths(s) + [e.path]
  {
  }

  lemma {:induction false} RepeatedPathRefused(lib: Library, c: Cache, files: seq<RawEntry>, i: nat, canonical: seq<Entry>, entry: Entry)
    requires i < |files| && AllRead(lib, files[..i], canonical)
    requires ReadEntry(lib, files[i]) == Some(entry) && entry.path in Paths(canonical)
    ensures forall entries :: AllRead(lib, files, entries) ==> !Describes(c, entries)
  {
    var j :| 0 <= j < i && canonical[j].path == entry.path;
    forall entries | AllRead(lib, files, entries)
      ensures !Describes(c, entries)
    {
      assert files[..i][j] == files[j];
      assert Some(entries[j]) == Some(canonical[j]) && Some(entries[i]) == Some(entry);
    }
  }

  lemma {:induction false} WrongEntryRefused(lib: Library, c: Cache, files: seq<RawEntry>, i: nat, entry: Entry)
    requires i < |files| && ReadEntry(lib, files[i]) == Some(entry)
    requires !IsEntryOf(c, entry) || IsLink(c.at(entry.path))
    ensures forall entries :: AllRead(lib, files, entries) ==> !Describes(c, entries)
  {
    forall entries | AllRead(lib, files, entries)
      ensures !Describes(c, entries)
    {
      assert Some(entries[i]) == Some(entry) && entries[i] in entries;
    }
  }

  // ---------------------------------------------------------------- what the digest names

  lemma {:induction false} DescribedEntry(c: Cache, entries: seq<Entry>, e: Entry)
    requires Describes(c, entries)
    ensures e in entries <==> IsEntryOf(c, e) && e.path in c.paths
  {
    if e in entries {
      var i :| 0 <= i < |entries| && entries[i] == e;
      assert Paths(entries)[i] == e.path;
    }
    if IsEntryOf(c, e) && e.path in c.paths {
      assert e.path in Paths(entries);
      var i :| 0 <= i < |entries| && Paths(entries)[i] == e.path;
      assert entries[i] in entries && IsEntryOf(c, entries[i]);
    }
  }

  /** All manifests accepted for a cache have one digest, however they list, spell or repeat white space
      around its files. */
  lemma {:induction false} DigestDependsOnCacheOnly(c: Cache, entries: seq<Entry>, entries': seq<Entry>)
    requires Describes(c, entries) && Describes(c, entries')
    ensures SortByPath(entries) == SortByPath(entries')
  {
    forall x
      ensures x in entries <==> x in entries'
    {
      DescribedEntry(c, entries, x);
      DescribedEntry(c, entries', x);
    }
    SortedListIsDetermined(entries, entries');
  }

  /** And with an encoding hash that does not collide, caches accepted under one digest hold the same
      files with the same content. */
  lemma {:induction false} DigestIdentifiesContent(lib: Library, c: Cache, c': Cache, entries: seq<Entry>, entries': seq<Entry>)
    requires forall x, y :: lib.encode(x) == lib.encode(y) ==> x == y
    requires Describes(c, entries) && Describes(c', entries')
    requires lib.encode(SortByPath(entries)) == lib.encode(SortByPath(entries'))
    ensures forall e :: IsEntryOf(c, e) && e.path in c.paths <==> IsEntryOf(c', e) && e.path in c'.paths
  {
    assert SortByPath(entries) == SortByPath(entries');
    forall e
      ensures IsEntryOf(c, e) && e.path in c.paths <==> IsEntryOf(c', e) && e.path in c'.paths
    {
      DescribedEntry(c, entries, e);
      DescribedEntry(c', entries', e);
      assert e in entries <==> e in SortByPath(entries);
    }
  }

  // ---------------------------------------------------------------- building

  function RawOf(e: Entry): RawEntry {
    RawEntry(e.path, e.hash, e.size)
  }

  /** The entries of the files among `paths`, in that order. */
  function Entries(c: Cache, paths: seq<string>): (entries: seq<Entry>)
    ensures forall e :: e in entries <==> IsEntryOf(c, e) && e.path in paths
  {
    if paths == [] then []
    else
      var front, last := paths[..|paths| - 1], paths[|paths| - 1];
      assert paths == front + [last];
      Entries(c, front) + if IsFile(c.at(last)) then [FileEntry(c, last)] else []
  }

  function Raws(entries: seq<Entry>): (files: seq<RawEntry>)
    ensures |files| == |entries| && forall i :: 0 <= i < |files| ==> files[i] == RawOf(entries[i])
  {
    seq(|entries|, i requires 0 <= i < |entries| => RawOf(entries[i]))
  }

  function Written(c: Cache): seq<RawEntry> {
    Raws(Entries(c, SortedUnique(c.paths)))
  }

  /** What is written does not depend on the order in which the directory is walked. */
  lemma {:induction false} WrittenIgnoresListing(c: Cache, c': Cache)
    requires c'.at == c.at && forall p :: p in c'.paths <==> p in c.paths
    ensures Written(c') == Written(c)
  {
    SortedUniqueDependsOnMembers(c'.paths, c.paths);
    EntriesSame(c', c, SortedUnique(c.paths));
  }

  lemma {:induction false} EntriesSame(c: Cache, c': Cache, paths: seq<string>)
    requires c'.at == c.at
    ensures Entries(c', paths) == Entries(c, paths)
  {
    if paths != [] {
      EntriesSame(c, c', paths[..|paths| - 1]);
    }
  }

  ghost predicate Linked(c: Cache) {
    exists p :: p in c.paths && IsLink(c.at(p))
  }

  /** The listing loop: refuse any link, note every regular file. */
  method ListFiles(c: Cache, paths: seq<string>) returns (linked: bool, files: seq<RawEntry>)
    ensures linked <==> exists p :: p in paths && IsLink(c.at(p))
    ensures !linked ==> files == Raws(Entries(c, paths))
  {
    files := [];
    for i := 0 to |paths|
      invariant forall p :: p in paths[..i] ==> !IsLink(c.at(p))
      invariant files == Raws(Entries(c, paths[..i]))
    {
      assert paths[..i + 1] == paths[..i] + [paths[i]];
      if IsLink(c.at(paths[i])) {
        assert paths[i] in paths;
        return true, files;
      }
      if IsFile(c.at(paths[i])) {
        files := files + [RawOf(FileEntry(c, paths[i]))];
      }
    }
    assert paths[..|paths|] == paths;
    linked := false;
  }

  method BuildManifest(lib: Library, c: Cache, outputInside: bool, outputExists: bool)
    returns (files: seq<RawEntry>, digest: Result<string, Failure>)
    ensures c.paths == [] ==> digest == Err(CacheEmpty)
    ensures digest.Ok? ==> files == Written(c) && !outputInside && !outputExists
    ensures c.paths != [] && !outputInside && !outputExists ==>
              (digest.Ok? <==> !Linked(c) && Written(c) != []
                               && exists entries :: AllRead(lib, Written(c), entries) && Describes(c, entries))
  {
    files := [];
    if c.paths == [] {
      return files, Err(CacheEmpty);
    }
    if outputInside {
      return files, Err(OutputInside);
    }
    if outputExists {
      return files, Err(OutputExists);
    }
    var linked;
    linked, files := ListFiles(c, SortedUnique(c.paths));
    assert linked <==> Linked(c);
    if linked {
      return files, Err(ContainsLink);
    }
    if files == [] {
      return files, Err(NoFiles);
    }
    digest := VerifyManifest(lib, c, files);
  }

  lemma {:induction false} EntriesDistinct(c: Cache, paths: seq<string>)
    requires Ascending(paths)
    ensures DistinctPaths(Entries(c, paths))
  {
    if paths != [] {
      var front, last := paths[..|paths| - 1], paths[|paths| - 1];
      EntriesDistinct(c, front);
      forall e | e in Entries(c, front)
        ensures e.path != last
      {
        var i :| 0 <= i < |front| && front[i] == e.path;
        assert StrLess(paths[i], paths[|paths| - 1]);
        StrLessIrreflexive(last);
      }
    }
  }

  /** Exactly when `verify` accepts what `build` wrote: the font is there, and no file's path begins or
      ends with white space, which reading the manifest back would trim away. */
  lemma {:induction false} BuildVerifiesIff(lib: Library, c: Cache)
    requires ValidCache(lib, c) && !Linked(c)
    ensures (exists entries :: AllRead(lib, Written(c), entries) && Describes(c, entries)) <==>
              && FONT_PATH in c.paths && IsEntryOf(c, FONT)
              && forall p :: p in c.paths && IsFile(c.at(p)) ==> Trimmed(p)
  {
    var listed := Entries(c, SortedUnique(c.paths));
    SortedUniqueAscending(c.paths);
    EntriesDistinct(c, SortedUnique(c.paths));
    if forall p :: p in c.paths && IsFile(c.at(p)) ==> Trimmed(p) {
      TrimmedReadsBack(lib, c, listed);
      forall entries | AllRead(lib, Written(c), entries)
        ensures entries == listed
      {
        assert forall i :: 0 <= i < |listed| ==> Some(entries[i]) == Some(listed[i]);
      }
      ListedDescribes(c, listed);
    } else {
      var p :| p in c.paths && IsFile(c.at(p)) && !Trimmed(p);
      forall entries | AllRead(lib, Written(c), entries)
        ensures !Describes(c, entries)
      {
        UntrimmedIsLost(lib, Written(c), entries, p);
      }
    }
  }

  lemma {:induction false} TrimmedReadsBack(lib: Library, c: Cache, listed: seq<Entry>)
    requires ValidCache(lib, c) && listed == Entries(c, SortedUnique(c.paths))
    requires forall p :: p in c.paths && IsFile(c.at(p)) ==> Trimmed(p)
    ensures AllRead(lib, Written(c), listed)
  {
    forall i | 0 <= i < |listed|
      ensures ReadEntry(lib, RawOf(listed[i])) == Some(listed[i])
    {
      assert listed[i] in listed;
      StripIff(listed[i].path);
    }
  }

  lemma {:induction false} ListedPath(c: Cache, listed: seq<Entry>, p: string)
    requires listed == Entries(c, SortedUnique(c.paths))
    ensures p in c.paths && IsFile(c.at(p)) <==> p in Paths(listed)
  {
    if p in c.paths && IsFile(c.at(p)) {
      assert FileEntry(c, p) in listed;
      var i :| 0 <= i < |listed| && listed[i] == FileEntry(c, p);
      assert Paths(listed)[i] == p;
    }
    if p in Paths(listed) {
      var i :| 0 <= i < |listed| && Paths(listed)[i] == p;
      assert listed[i] in listed;
    }
  }

  lemma {:induction false} ListedDescribes(c: Cache, listed: seq<Entry>)
    requires listed == Entries(c, SortedUnique(c.paths)) && DistinctPaths(listed)
    requires !Linked(c)
    ensures Describes(c, listed) <==> FONT_PATH in c.paths && IsEntryOf(c, FONT)
  {
    forall p
      ensures p in c.paths && IsFile(c.at(p)) <==> p in Paths(listed)
    {
      ListedPath(c, listed, p);
    }
    assert forall e :: e in listed ==> e.path in c.paths;
  }

  lemma {:induction false} UntrimmedIsLost(lib: Library, files: seq<RawEntry>, entries: seq<Entry>, p: string)
    requires AllRead(lib, files, entries) && !Trimmed(p)
    ensures p !in Paths(entries)
  {
    forall i | 0 <= i < |entries|
      ensures Paths(entries)[i] != p
    {
      assert entries[i].path == Strip(files[i].path);
      StripIff(files[i].path);
    }
  }
}
