/** Competitor discovery (`Evaluation.get_competitors`): the experiment
    directory is read from a snapshot of its listing instead of the file
    system. Every immediate sub-directory is a competitor; names are sorted,
    optionally filtered by a substring pattern, and each competitor collects
    the paths of its own sub-directories (its runs) in listing order. */
module Discovery {
  import opened Basics

  /** One entry of a directory listing (what `os.listdir` returns, with
      `os.path.isdir` answered), with the listing of its own children. */
  datatype Entry = Entry(name: string, isDir: bool, children: seq<Entry>)

  /** A competitor: a configuration name and the paths of its runs. */
  datatype Competitor = Competitor(name: string, runs: seq<string>)

  /** `os.path.join(dir, name)` for a name without a separator in it. */
  function JoinPath(dir: string, name: string): (p: string)
    ensures |p| >= |name| && p[|p| - |name|..] == name
  {
    if dir == [] then name
    else if dir[|dir| - 1] == '/' then dir + name
    else dir + "/" + name
  }

  /** Names of the directory entries of a listing, in listing order. */
  function DirNames(listing: seq<Entry>): (names: seq<string>)
    ensures |names| <= |listing|
  {
    if listing == [] then []
    else (if listing[0].isDir then [listing[0].name] else []) + DirNames(listing[1..])
  }

  lemma {:induction false} DirNamesMembers(listing: seq<Entry>, x: string)
    ensures x in DirNames(listing) <==> exists k :: 0 <= k < |listing| && listing[k].isDir && listing[k].name == x
  {
    if listing != [] {
      DirNamesMembers(listing[1..], x);
      if x in DirNames(listing[1..]) {
        var k :| 0 <= k < |listing| - 1 && listing[1..][k].isDir && listing[1..][k].name == x;
        assert listing[k + 1].isDir && listing[k + 1].name == x;
      }
      if exists k :: 0 <= k < |listing| && listing[k].isDir && listing[k].name == x {
        var k :| 0 <= k < |listing| && listing[k].isDir && listing[k].name == x;
        if k > 0 {
          assert listing[1..][k - 1] == listing[k];
        }
      }
    }
  }

  /** The first entry of a listing with the given name. */
  function Find(listing: seq<Entry>, name: string): (e: Option<Entry>)
    ensures e.Some? ==> e.value in listing && e.value.name == name
    ensures e.None? ==> forall k :: 0 <= k < |listing| ==> listing[k].name != name
  {
    if listing == [] then None
    else if listing[0].name == name then Some(listing[0])
    else Find(listing[1..], name)
  }

  /** No two entries of a listing share a name, as `os.listdir` guarantees. */
  predicate UniqueNames(listing: seq<Entry>) {
    Distinct(EntryNames(listing))
  }

  /** The names of a listing's entries, files and directories alike. */
  function EntryNames(listing: seq<Entry>): (names: seq<string>)
    ensures |names| == |listing| && forall k :: 0 <= k < |listing| ==> names[k] == listing[k].name
  {
    seq(|listing|, k requires 0 <= k < |listing| => listing[k].name)
  }

  lemma {:induction false} DirNamesDistinct(listing: seq<Entry>)
    requires UniqueNames(listing)
    ensures Distinct(DirNames(listing))
  {
    if listing != [] {
      var rest := listing[1..];
      assert forall i, j :: 0 <= i < j < |rest| ==> rest[i] == listing[i + 1] && rest[j] == listing[j + 1];
      DirNamesDistinct(rest);
      DirNamesMembers(rest, listing[0].name);
    }
  }

  // ---------------------------------------------------------------------------
  // Sorting (`sorted(competitors.items())`, keys compared as str)
  // ---------------------------------------------------------------------------

  predicate Sorted(names: seq<string>) {
    forall i, j :: 0 <= i < j < |names| ==> LexLe(names[i], names[j])
  }

  /** Insert one name into a sorted list of names. */
  function Insert(names: seq<string>, x: string): (r: seq<string>)
    requires Sorted(names)
    ensures Sorted(r)
    ensures multiset(r) == multiset(names) + multiset{x}
  {
    if names == [] then [x]
    else if LexLe(x, names[0]) then
      assert forall j :: 0 <= j < |names| ==> LexLe(x, names[j]) by {
        forall j | 0 <= j < |names| ensures LexLe(x, names[j]) {
          if j > 0 { LexLeTransitive(x, names[0], names[j]); }
        }
      }
      [x] + names
    else
      var rest := Insert(names[1..], x);
      assert names == [names[0]] + names[1..];
      LexLeTotal(x, names[0]);
      assert forall j :: 0 <= j < |rest| ==> LexLe(names[0], rest[j]) by {
        forall j | 0 <= j < |rest| ensures LexLe(names[0], rest[j]) {
          assert rest[j] in multiset(rest);
          if rest[j] != x {
            assert rest[j] in multiset(names[1..]);
            var k :| 0 <= k < |names[1..]| && names[1..][k] == rest[j];
            assert names[k + 1] == rest[j];
          }
        }
      }
      [names[0]] + rest
  }

  /** The names in ascending order (the order `sorted` gives to distinct keys). */
  function SortNames(names: seq<string>): (r: seq<string>)
    ensures Sorted(r)
    ensures multiset(r) == multiset(names)
  {
    if names == [] then []
    else
      assert names == [names[0]] + names[1..];
      Insert(SortNames(names[1..]), names[0])
  }

  // ---------------------------------------------------------------------------
  // Filtering by pattern (`get_competitors`, the regex step)
  // ---------------------------------------------------------------------------

  /** The names that survive the pattern: all of them without a pattern,
      otherwise those holding the pattern as a substring, order kept. */
  function Matching(names: seq<string>, pattern: Option<string>): seq<string> {
    if pattern.None? || names == [] then names
    else (if Contains(names[0], pattern.value) then [names[0]] else [])
         + Matching(names[1..], pattern)
  }

  /** The names of `names` that do not occur in `keys`, order kept. */
  function Without(names: seq<string>, keys: seq<string>): seq<string> {
    if names == [] then []
    else (if names[0] in keys then [] else [names[0]]) + Without(names[1..], keys)
  }

  /** The names the pattern rejects, in order (the `keys_to_pop` list). */
  function Rejected(names: seq<string>, pattern: string): seq<string> {
    if names == [] then []
    else Rejected(names[..|names| - 1], pattern)
         + (if Contains(names[|names| - 1], pattern) then [] else [names[|names| - 1]])
  }

  lemma {:induction false} RejectedMembers(names: seq<string>, pattern: string, x: string)
    ensures x in Rejected(names, pattern) <==> x in names && !Contains(x, pattern)
  {
    if names != [] {
      var init := names[..|names| - 1];
      RejectedMembers(init, pattern, x);
      assert names == init + [names[|names| - 1]];
    }
  }

  lemma {:induction false} WithoutOneMore(names: seq<string>, keys: seq<string>, k: string)
    ensures Without(names, keys + [k]) == Without(Without(names, keys), [k])
  {
    if names != [] {
      WithoutOneMore(names[1..], keys, k);
      assert names[0] in keys + [k] <==> names[0] in keys || names[0] == k;
      if names[0] !in keys {
        assert Without(names, keys) == [names[0]] + Without(names[1..], keys);
        var w := Without(names, keys);
        assert w[1..] == Without(names[1..], keys);
        assert names[0] in [k] <==> names[0] == k;
        assert Without(w, [k]) == (if w[0] in [k] then [] else [w[0]]) + Without(w[1..], [k]);
        assert Without(names, keys + [k])
          == (if names[0] == k then [] else [names[0]]) + Without(names[1..], keys + [k]);
      } else {
        assert Without(names, keys) == Without(names[1..], keys);
        assert Without(names, keys + [k]) == Without(names[1..], keys + [k]);
      }
    }
  }

  lemma {:induction false} WithoutRejected(names: seq<string>, keys: seq<string>, pattern: string)
    requires forall k :: 0 <= k < |names| ==> (names[k] in keys <==> !Contains(names[k], pattern))
    ensures Without(names, keys) == Matching(names, Some(pattern))
  {
    if names != [] {
      WithoutRejected(names[1..], keys, pattern);
    }
  }

  /** With a pattern, exactly the names holding it survive. */
  lemma {:induction false} MatchingMembers(names: seq<string>, pattern: string, x: string)
    ensures x in Matching(names, Some(pattern)) <==> x in names && Contains(x, pattern)
  {
    if names != [] {
      MatchingMembers(names[1..], pattern, x);
      assert names == [names[0]] + names[1..];
    }
  }

  /** Filtering keeps survivors in their relative order, so sorted stays sorted. */
  lemma {:induction false} MatchingSorted(names: seq<string>, pattern: Option<string>)
    requires Sorted(names)
    ensures Sorted(Matching(names, pattern))
  {
    if pattern.Some? && names != [] {
      MatchingSorted(names[1..], pattern);
      var rest := Matching(names[1..], pattern);
      forall j | 0 <= j < |rest| ensures LexLe(names[0], rest[j]) {
        MatchingMembers(names[1..], pattern.value, rest[j]);
        var k :| 0 <= k < |names[1..]| && names[1..][k] == rest[j];
        assert names[k + 1] == rest[j];
      }
    }
  }

  /** Filtering drops names and never repeats one. */
  lemma {:induction false} MatchingDistinct(names: seq<string>, pattern: Option<string>)
    requires Distinct(names)
    ensures Distinct(Matching(names, pattern))
  {
    if pattern.Some? && names != [] {
      var tail := names[1..];
      assert forall i, j :: 0 <= i < j < |tail| ==> tail[i] == names[i + 1] && tail[j] == names[j + 1];
      MatchingDistinct(tail, pattern);
      MatchingMembers(tail, pattern.value, names[0]);
    }
  }

  /** The regex step of `get_competitors`: collect the keys to pop in one pass, then pop them. */
  method FilterByPattern(names: seq<string>, pattern: Option<string>) returns (kept: seq<string>)
    ensures kept == Matching(names, pattern)
  {
    kept := names;
    if pattern.Some? {
      var keysToPop: seq<string> := [];
      var i := 0;
      while i < |names|
        invariant 0 <= i <= |names|
        invariant keysToPop == Rejected(names[..i], pattern.value)
      {
        assert names[..i + 1][..i] == names[..i];
        if !Contains(names[i], pattern.value) {
          keysToPop := keysToPop + [names[i]];
        }
        i := i + 1;
      }
      assert names[..i] == names;
      WithoutNothing(names);
      var j := 0;
      while j < |keysToPop|
        invariant 0 <= j <= |keysToPop|
        invariant kept == Without(names, keysToPop[..j])
      {
        WithoutOneMore(names, keysToPop[..j], keysToPop[j]);
        assert keysToPop[..j + 1] == keysToPop[..j] + [keysToPop[j]];
        kept := Without(kept, [keysToPop[j]]);
        j := j + 1;
      }
      assert keysToPop[..j] == keysToPop;
      forall k | 0 <= k < |names|
        ensures names[k] in keysToPop <==> !Contains(names[k], pattern.value)
      {
        RejectedMembers(names, pattern.value, names[k]);
      }
      WithoutRejected(names, keysToPop, pattern.value);
    } else {
      assert names == Without(names, []) by { WithoutNothing(names); }
    }
  }

  lemma {:induction false} WithoutNothing(names: seq<string>)
    ensures Without(names, []) == names
  {
    if names != [] { WithoutNothing(names[1..]); }
  }

  // ---------------------------------------------------------------------------
  // Run paths (`get_competitors`, the listing of each competitor) and the
  // whole discovery
  // ---------------------------------------------------------------------------

  /** The paths of the sub-directories among `files`, in listing order. */
  function RunPaths(dir: string, files: seq<Entry>): (paths: seq<string>)
    ensures |paths| <= |files|
  {
    if files == [] then []
    else RunPaths(dir, files[..|files| - 1])
         + (if files[|files| - 1].isDir then [JoinPath(dir, files[|files| - 1].name)] else [])
  }

  /** The listing of a competitor's own directory. */
  function ChildrenOf(listing: seq<Entry>, name: string): seq<Entry> {
    match Find(listing, name)
    case Some(e) => e.children
    case None => []
  }

  function MakeCompetitor(expDir: string, listing: seq<Entry>, name: string): Competitor {
    var dir := JoinPath(expDir, name);
    Competitor(name, RunPaths(dir, ChildrenOf(listing, name)))
  }

  function Names(comps: seq<Competitor>): (names: seq<string>)
    ensures |names| == |comps|
    ensures forall k :: 0 <= k < |comps| ==> names[k] == comps[k].name
  {
    if comps == [] then [] else [comps[0].name] + Names(comps[1..])
  }

  /** What discovery yields for a listing of the experiment directory. */
  function Discover(expDir: string, listing: seq<Entry>, pattern: Option<string>): seq<Competitor> {
    var names := Matching(SortNames(DirNames(listing)), pattern);
    seq(|names|, k requires 0 <= k < |names| => MakeCompetitor(expDir, listing, names[k]))
  }

  /** The inner loop of `get_competitors`: the sub-directories of one competitor's listing, as paths. */
  method ListRuns(path: string, files: seq<Entry>) returns (runs: seq<string>)
    ensures runs == RunPaths(path, files)
  {
    runs := [];
    var f := 0;
    while f < |files|
      invariant 0 <= f <= |files|
      invariant runs == RunPaths(path, files[..f])
    {
      assert files[..f + 1][..f] == files[..f];
      if files[f].isDir {
        runs := runs + [JoinPath(path, files[f].name)];
      }
      f := f + 1;
    }
    assert files[..f] == files;
  }

  /** The outer loop of `get_competitors`: list each competitor's directory and append its sub-directories. */
  method CollectRuns(expDir: string, listing: seq<Entry>, names: seq<string>) returns (comps: seq<Competitor>)
    ensures |comps| == |names|
    ensures forall k :: 0 <= k < |names| ==> comps[k] == MakeCompetitor(expDir, listing, names[k])
  {
    comps := [];
    var i := 0;
    while i < |names|
      invariant 0 <= i <= |names| && |comps| == i
      invariant forall k :: 0 <= k < i ==> comps[k] == MakeCompetitor(expDir, listing, names[k])
    {
      var path := JoinPath(expDir, names[i]);
      var runs := ListRuns(path, ChildrenOf(listing, names[i]));
      comps := comps + [Competitor(names[i], runs)];
      i := i + 1;
    }
  }

  /** `Evaluation.get_competitors`: competitors are the directories of the
      listing, in ascending name order, filtered by the pattern, each with
      its sub-directory paths in listing order. */
  method GetCompetitors(expDir: string, listing: seq<Entry>, pattern: Option<string>)
    returns (comps: seq<Competitor>)
    ensures comps == Discover(expDir, listing, pattern)
    ensures Sorted(Names(comps))
    ensures forall x :: x in Names(comps) <==>
      (x in DirNames(listing) && (pattern.Some? ==> Contains(x, pattern.value)))
    ensures UniqueNames(listing) ==> Distinct(Names(comps))
  {
    var names := SortNames(DirNames(listing));
    names := FilterByPattern(names, pattern);
    comps := CollectRuns(expDir, listing, names);
    assert Names(comps) == names;
    MatchingSorted(SortNames(DirNames(listing)), pattern);
    forall x ensures x in names <==> (x in DirNames(listing) && (pattern.Some? ==> Contains(x, pattern.value))) {
      SortedMembers(DirNames(listing), x);
      if pattern.Some? {
        MatchingMembers(SortNames(DirNames(listing)), pattern.value, x);
      }
    }
    if UniqueNames(listing) {
      DiscoveredNamesDistinct(expDir, listing, pattern);
    }
  }

  /** A listing without repeated names yields competitors without repeated
      names: each is one key of the `competitors` dictionary. */
  lemma DiscoveredNamesDistinct(expDir: string, listing: seq<Entry>, pattern: Option<string>)
    requires UniqueNames(listing)
    ensures Distinct(Names(Discover(expDir, listing, pattern)))
  {
    var names := Matching(SortNames(DirNames(listing)), pattern);
    DirNamesDistinct(listing);
    DistinctPermutation(DirNames(listing), SortNames(DirNames(listing)));
    MatchingDistinct(SortNames(DirNames(listing)), pattern);
    assert Names(Discover(expDir, listing, pattern)) == names;
  }

  lemma SortedMembers(names: seq<string>, x: string)
    ensures x in SortNames(names) <==> x in names
  {
    assert x in SortNames(names) <==> x in multiset(SortNames(names));
  }

  /** Only directory entries become competitors, and only sub-directories
      become runs: every run path of a discovered competitor ends with the
      name of a directory entry of that competitor's own listing. */
  lemma {:induction false} RunsAreDirectories(dir: string, files: seq<Entry>, k: nat)
    requires k < |RunPaths(dir, files)|
    ensures exists j :: 0 <= j < |files| && files[j].isDir
              && RunPaths(dir, files)[k] == JoinPath(dir, files[j].name)
  {
    var init := files[..|files| - 1];
    var last := files[|files| - 1];
    if k < |RunPaths(dir, init)| {
      RunsAreDirectories(dir, init, k);
      var j :| 0 <= j < |init| && init[j].isDir && RunPaths(dir, init)[k] == JoinPath(dir, init[j].name);
      assert files[j] == init[j];
    } else {
      assert last.isDir && RunPaths(dir, files)[k] == JoinPath(dir, last.name);
    }
  }

  lemma {:induction false} DirNamesSnoc(files: seq<Entry>, e: Entry)
    ensures DirNames(files + [e]) == DirNames(files) + (if e.isDir then [e.name] else [])
  {
    if files != [] {
      assert (files + [e])[1..] == files[1..] + [e];
      DirNamesSnoc(files[1..], e);
    } else {
      assert files + [e] == [e];
    }
  }

  /** Runs keep the listing order: the k-th run path is the k-th
      sub-directory name of the listing joined to the competitor's path. */
  lemma {:induction false} RunPathsInListingOrder(dir: string, files: seq<Entry>)
    ensures |RunPaths(dir, files)| == |DirNames(files)|
    ensures forall k :: 0 <= k < |DirNames(files)| ==> RunPaths(dir, files)[k] == JoinPath(dir, DirNames(files)[k])
  {
    if files != [] {
      var init := files[..|files| - 1];
      var last := files[|files| - 1];
      RunPathsInListingOrder(dir, init);
      assert files == init + [last];
      DirNamesSnoc(init, last);
    }
  }
}
