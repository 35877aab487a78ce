/**
 The two route discoveries of the admin end-to-end suite: a recursive walk over the directory tree,
 and a flat pass over the list of tracked files.  They find the same routes.
 */
module Routes {
  import opened Wrappers
  import opened Text

  datatype Entry = File(name: string) | Folder(name: string, entries: seq<Entry>)

  const PAGE := "page.tsx"
  const PLACEHOLDER := "e2e-placeholder"

  predicate IsSlot(name: string) { "@" <= name }

  predicate IsGroup(name: string) { "(" <= name }

  predicate IsParameter(name: string) { "[" <= name }

  /** What a file system gives: names without a slash, and no two page files in one directory. */
  ghost predicate WellFormed(entries: seq<Entry>) {
    && (forall i | 0 <= i < |entries| :: '/' !in entries[i].name)
    && (forall i, j | 0 <= i < j < |entries| && entries[i].File? && entries[j].File? ::
          entries[i].name != entries[j].name)
    && (forall i | 0 <= i < |entries| && entries[i].Folder? :: WellFormed(entries[i].entries))
  }

  // ----- the recursive walk -----

  predicate HasPage(entries: seq<Entry>) {
    exists i :: 0 <= i < |entries| && entries[i].File? && entries[i].name == PAGE
  }

  function OrRoot(route: string): string { if route == "" then "/" else route }

  function Patterns(entries: seq<Entry>, prefix: string): seq<string>
    decreases entries, 1
  {
    (if HasPage(entries) then [OrRoot(prefix)] else []) + FolderPatterns(entries, prefix)
  }

  function FolderPatterns(entries: seq<Entry>, prefix: string): seq<string>
    decreases entries, 0
  {
    if entries == [] then []
    else EntryPatterns(entries[0], prefix) + FolderPatterns(entries[1..], prefix)
  }

  function EntryPatterns(entry: Entry, prefix: string): seq<string>
    decreases entry, 2
  {
    if entry.File? || IsSlot(entry.name) then []
    else Patterns(entry.entries, Extend(prefix, entry.name))
  }

  function Extend(prefix: string, name: string): string {
    if IsGroup(name) then prefix else prefix + "/" + name
  }

  /** `routePatternsUnder`. */
  method RoutePatternsUnder(entries: seq<Entry>, prefix: string) returns (patterns: seq<string>)
    ensures patterns == Patterns(entries, prefix)
    decreases entries
  {
    patterns := if HasPage(entries) then [OrRoot(prefix)] else [];
    assert entries[0..] == entries;
    NoFolders(prefix);
    assert Patterns(entries, prefix) == patterns + FolderPatterns(entries, prefix);
    hide Patterns, FolderPatterns, HasPage, Extend, IsSlot;
    for i := 0 to |entries|
      invariant Patterns(entries, prefix) == patterns + FolderPatterns(entries[i..], prefix)
    {
      var entry := entries[i];
      FirstFolder(entries, i, prefix);
      assert patterns + [] == patterns;
      if entry.File? || IsSlot(entry.name) {
        continue;
      }
      assert entry in entries;
      var nested := RoutePatternsUnder(entry.entries, Extend(prefix, entry.name));
      patterns := patterns + nested;
    }
    assert entries[|entries|..] == [] && patterns + [] == patterns;
  }

  lemma {:induction false} NoFolders(prefix: string)
    ensures FolderPatterns([], prefix) == []
  {
  }

  lemma {:induction false} FirstFolder(entries: seq<Entry>, i: nat, prefix: string)
    requires i < |entries|
    ensures FolderPatterns(entries[i..], prefix) ==
            (if entries[i].File? || IsSlot(entries[i].name) then []
             else Patterns(entries[i].entries, Extend(prefix, entries[i].name)))
            + FolderPatterns(entries[i + 1..], prefix)
  {
    assert entries[i..][1..] == entries[i + 1..];
  }

  /** The first character of a folder's name decides what it is to a route. */
  lemma NameKinds(name: string)
    ensures IsSlot(name) <==> name != "" && name[0] == '@'
    ensures IsGroup(name) <==> name != "" && name[0] == '('
    ensures IsParameter(name) <==> name != "" && name[0] == '['
  {
  }

  /** A folder's routes: none under a slot, its contents' at the same prefix in a group, and one segment further otherwise. */
  lemma {:induction false} FolderRoutes(name: string, entries: seq<Entry>, prefix: string)
    ensures EntryPatterns(Folder(name, entries), prefix) ==
            if name != "" && name[0] == '@' then []
            else Patterns(entries, if name != "" && name[0] == '(' then prefix else prefix + "/" + name)
  {
    NameKinds(name);
  }

  /** A directory's own route comes first, if it has a page. */
  lemma {:induction false} PageComesFirst(entries: seq<Entry>, prefix: string)
    ensures Patterns(entries, prefix) ==
            (if exists i :: 0 <= i < |entries| && entries[i].File? && entries[i].name == "page.tsx"
             then [if prefix == "" then "/" else prefix] else [])
            + FolderPatterns(entries, prefix)
  {
  }

  // ----- the flat pass -----

  /** `/(?:^|\/)page\.tsx$/`. */
  predicate IsPageFile(path: string) {
    path == PAGE || (|path| > |PAGE| && path[|path| - |PAGE| - 1..] == "/" + PAGE)
  }

  function Visible(names: seq<string>): seq<string> {
    if names == [] then []
    else (if IsGroup(names[0]) then [] else [names[0]]) + Visible(names[1..])
  }

  function Filled(names: seq<string>): seq<string> {
    seq(|names|, i requires 0 <= i < |names| => if IsParameter(names[i]) then PLACEHOLDER else names[i])
  }

  /** Each segment behind a slash, concatenated. */
  function Slashed(names: seq<string>): string {
    if names == [] then "" else "/" + names[0] + Slashed(names[1..])
  }

  predicate HasSlot(names: seq<string>) {
    exists i :: 0 <= i < |names| && IsSlot(names[i])
  }

  /** The routes one tracked file contributes: one for a page outside every slot, else none. */
  function RouteOf(path: string): seq<string> {
    if !IsPageFile(path) then []
    else
      var parts := Split(path, '/');
      var segments := parts[..|parts| - 1];
      if HasSlot(segments) then [] else [OrRoot(Slashed(Filled(Visible(segments))))]
  }

  function FlatRoutes(files: seq<string>): seq<string> {
    if files == [] then [] else RouteOf(files[0]) + FlatRoutes(files[1..])
  }

  /** `shellRoutes`, over the list `trackedFilesUnder` returns. */
  method ShellRoutes(files: seq<string>) returns (routes: seq<string>)
    ensures routes == FlatRoutes(files)
  {
    hide FlatRoutes, Slashed, Filled, Visible, HasSlot, IsPageFile;
    routes := [];
    assert files[0..] == files;
    for i := 0 to |files|
      invariant FlatRoutes(files) == routes + FlatRoutes(files[i..])
    {
      FirstRoute(files, i);
      assert routes + [] == routes;
      if !IsPageFile(files[i]) {
        continue;
      }
      var parts := Split(files[i], '/');
      var segments := parts[..|parts| - 1];
      if HasSlot(segments) {
        continue;
      }
      var route := Slashed(Filled(Visible(segments)));
      routes := routes + [if route == "" then "/" else route];
    }
    NoRoutes();
    assert files[|files|..] == [] && routes + [] == routes;
  }

  lemma NoRoutes()
    ensures FlatRoutes([]) == []
  {
  }

  lemma FirstRoute(files: seq<string>, i: nat)
    requires i < |files|
    ensures FlatRoutes(files[i..]) == RouteOf(files[i]) + FlatRoutes(files[i + 1..])
  {
    hide RouteOf;
    assert files[i..][1..] == files[i + 1..];
  }

  // ----- the files of a tree -----

  /** The tree's file paths: a directory's own files, then those of its folders. */
  function Files(entries: seq<Entry>, dirs: seq<string>): seq<string>
    decreases entries, 1
  {
    OwnFiles(entries, dirs) + FolderFiles(entries, dirs)
  }

  function OwnFiles(entries: seq<Entry>, dirs: seq<string>): seq<string> {
    if entries == [] then []
    else (if entries[0].File? then [Join(dirs + [entries[0].name], '/')] else []) + OwnFiles(entries[1..], dirs)
  }

  function FolderFiles(entries: seq<Entry>, dirs: seq<string>): seq<string>
    decreases entries, 0
  {
    if entries == [] then [] else EntryFiles(entries[0], dirs) + FolderFiles(entries[1..], dirs)
  }

  function EntryFiles(entry: Entry, dirs: seq<string>): seq<string>
    decreases entry, 2
  {
    if entry.File? then [] else Files(entry.entries, dirs + [entry.name])
  }

  // ----- filling a pattern -----

  /** The flat pass's placeholder, put into a pattern of the recursive walk segment by segment. */
  function Fill(pattern: string): string {
    Join(Filled(Split(pattern, '/')), '/')
  }

  function FillAll(patterns: seq<string>): seq<string> {
    if patterns == [] then [] else [Fill(patterns[0])] + FillAll(patterns[1..])
  }

  lemma {:induction false} FillAllSplits(a: seq<string>, b: seq<string>)
    ensures FillAll(a + b) == FillAll(a) + FillAll(b)
  {
    if a == [] {
      assert a + b == b;
    } else {
      assert (a + b)[1..] == a[1..] + b;
      FillAllSplits(a[1..], b);
    }
  }

  lemma {:induction false} FlatRoutesSplit(a: seq<string>, b: seq<string>)
    ensures FlatRoutes(a + b) == FlatRoutes(a) + FlatRoutes(b)
  {
    if a == [] {
      assert a + b == b;
    } else {
      assert (a + b)[1..] == a[1..] + b;
      FlatRoutesSplit(a[1..], b);
    }
  }

  lemma {:induction false} SlashedIsJoin(names: seq<string>)
    ensures Slashed(names) == Join([""] + names, '/')
  {
    if names != [] {
      SlashedIsJoin(names[1..]);
      assert ([""] + names)[1..] == names;
      if |names| > 1 {
        assert Join([""] + names[1..], '/') == "" + ['/'] + Join(names[1..], '/') by {
          assert ([""] + names[1..])[1..] == names[1..];
        }
      } else {
        assert names[1..] == [];
      }
    }
  }

  /** Filling the pattern of some segments fills each of them. */
  lemma {:induction false} FillOfSlashed(names: seq<string>)
    requires Free(names, '/')
    ensures Fill(OrRoot(Slashed(names))) == OrRoot(Slashed(Filled(names)))
  {
    SlashedIsJoin(names);
    SlashedIsJoin(Filled(names));
    if Slashed(names) == "" {
      assert names == [];
      SplitAfterPart([], "", '/');
      SplitOfPart("", '/');
      assert "/" == [] + ['/'] + "";
      assert Split("/", '/') == ["", ""];
      assert Filled(["", ""]) == ["", ""];
      assert Join(["", ""], '/') == "/" by {
        assert ["", ""][1..] == [""];
      }
    } else {
      SplitOfJoin([""] + names, '/');
      assert Filled([""] + names) == [""] + Filled(names);
    }
  }

  // ----- agreement -----

  lemma {:induction false} PageFileByName(dirs: seq<string>, name: string)
    requires Free(dirs, '/') && '/' !in name
    ensures IsPageFile(Join(dirs + [name], '/')) <==> name == PAGE
  {
    JoinEndsWithLast(dirs, name);
    assert '/' !in PAGE;
    if dirs == [] {
      if |name| > |PAGE| {
        assert name[|name| - |PAGE| - 1..][0] == name[|name| - |PAGE| - 1];
      }
    } else {
      SuffixAfterSlash(Join(dirs, '/'), name, PAGE);
    }
  }

  /** A path's text after its last slash is a whole name. */
  lemma SuffixAfterSlash(head: string, name: string, tail: string)
    requires '/' !in name && '/' !in tail
    ensures var path := head + "/" + name;
            path == tail || (|path| > |tail| && path[|path| - |tail| - 1..] == "/" + tail) <==> name == tail
  {
    var path := head + "/" + name;
    assert path[|head|] == '/' && '/' in path;
    assert forall i | |head| < i < |path| :: path[i] == name[i - |head| - 1];
    if |path| > |tail| && path[|path| - |tail| - 1..] == "/" + tail {
      var k := |path| - |tail| - 1;
      assert forall i | k <= i < |path| :: path[i] == path[k..][i - k] == ("/" + tail)[i - k];
      assert path[k] == '/' && k <= |head|;
      assert forall i | k < i < |path| :: path[i] != '/';
      assert k == |head|;
      assert path[k + 1..] == name && ("/" + tail)[1..] == tail;
      assert path[k..][1..] == path[k + 1..];
    }
    if name == tail {
      assert path[|path| - |tail| - 1..] == "/" + tail;
    }
  }

  lemma {:induction false} JoinEndsWithLast(dirs: seq<string>, name: string)
    ensures Join(dirs + [name], '/') == if dirs == [] then name else Join(dirs, '/') + "/" + name
  {
    if |dirs| > 1 {
      var rest := dirs[1..];
      assert (dirs + [name])[1..] == rest + [name];
      JoinEndsWithLast(rest, name);
      assert Join(dirs + [name], '/') == dirs[0] + ['/'] + (Join(rest, '/') + "/" + name);
      assert Join(dirs, '/') == dirs[0] + ['/'] + Join(rest, '/');
    } else if |dirs| == 1 {
      assert (dirs + [name])[1..] == [name];
    } else {
      assert dirs + [name] == [name];
    }
  }

  lemma {:induction false} RouteOfPage(dirs: seq<string>, name: string)
    requires Free(dirs, '/') && '/' !in name
    ensures RouteOf(Join(dirs + [name], '/')) ==
            if name == PAGE && !HasSlot(dirs) then [OrRoot(Slashed(Filled(Visible(dirs))))] else []
  {
    PageFileByName(dirs, name);
    SplitOfJoin(dirs + [name], '/');
    assert (dirs + [name])[..|dirs|] == dirs;
  }

  /** What a flat route shows of some directories: groups left out, parameters as placeholders. */
  function ShownSegments(dirs: seq<string>): seq<string> {
    if dirs == [] then []
    else if dirs[0] != "" && dirs[0][0] == '(' then ShownSegments(dirs[1..])
    else [if dirs[0] != "" && dirs[0][0] == '[' then "e2e-placeholder" else dirs[0]] + ShownSegments(dirs[1..])
  }

  lemma {:induction false} ShownAreFilled(dirs: seq<string>)
    ensures Filled(Visible(dirs)) == ShownSegments(dirs)
  {
    if dirs != [] {
      ShownAreFilled(dirs[1..]);
      NameKinds(dirs[0]);
      hide IsGroup, IsParameter;
      var rest := Visible(dirs[1..]);
      if !IsGroup(dirs[0]) {
        assert Filled([dirs[0]] + rest) == Filled([dirs[0]]) + Filled(rest);
      }
    }
  }

  /** A tracked file has a route exactly when it is a page outside every slot, and the route is what is shown of its directories. */
  lemma {:induction false} PageRoutes(dirs: seq<string>, name: string)
    requires Free(dirs, '/') && '/' !in name
    ensures var routes := RouteOf(Join(dirs + [name], '/'));
            if name == "page.tsx" && forall i | 0 <= i < |dirs| :: dirs[i] == "" || dirs[i][0] != '@' then
              routes == [if ShownSegments(dirs) == [] then "/" else Join([""] + ShownSegments(dirs), '/')]
            else routes == []
  {
    RouteOfPage(dirs, name);
    ShownAreFilled(dirs);
    SlashedIsJoin(ShownSegments(dirs));
    forall i | 0 <= i < |dirs| { NameKinds(dirs[i]); }
    hide RouteOf, Filled, Visible, IsSlot, ShownSegments, Join;
  }

  lemma {:induction false} VisibleSnoc(names: seq<string>, name: string)
    ensures Visible(names + [name]) == Visible(names) + if IsGroup(name) then [] else [name]
  {
    hide IsGroup;
    if names == [] {
      assert names + [name] == [name] && [name][1..] == [];
    } else {
      assert (names + [name])[1..] == names[1..] + [name];
      VisibleSnoc(names[1..], name);
    }
  }

  lemma {:induction false} SlashedSnoc(names: seq<string>, name: string)
    ensures Slashed(names + [name]) == Slashed(names) + "/" + name
  {
    if names == [] {
      assert names + [name] == [name] && [name][1..] == [];
    } else {
      assert (names + [name])[1..] == names[1..] + [name];
      SlashedSnoc(names[1..], name);
    }
  }

  lemma {:induction false} VisibleIsFree(names: seq<string>)
    requires Free(names, '/')
    ensures Free(Visible(names), '/')
  {
    if names != [] {
      VisibleIsFree(names[1..]);
    }
  }

  /** A folder extends the walk's prefix as it extends the flat pass's visible segments. */
  lemma {:induction false} PrefixFollowsFolders(dirs: seq<string>, name: string)
    ensures Slashed(Visible(dirs + [name])) == Extend(Slashed(Visible(dirs)), name)
  {
    VisibleSnoc(dirs, name);
    if IsGroup(name) {
      assert Visible(dirs) + [] == Visible(dirs);
    } else {
      SlashedSnoc(Visible(dirs), name);
    }
  }

  lemma SlotsStay(dirs: seq<string>, name: string)
    ensures HasSlot(dirs + [name]) <==> HasSlot(dirs) || IsSlot(name)
  {
    var more := dirs + [name];
    if i :| 0 <= i < |dirs| && IsSlot(dirs[i]) {
      assert IsSlot(more[i]);
    }
    if IsSlot(name) {
      assert IsSlot(more[|dirs|]);
    }
  }

  lemma {:induction false} FirstPage(entries: seq<Entry>)
    requires WellFormed(entries) && entries != []
    ensures WellFormed(entries[1..])
    ensures HasPage(entries) <==> (entries[0].File? && entries[0].name == PAGE) || HasPage(entries[1..])
    ensures entries[0].File? && entries[0].name == PAGE ==> !HasPage(entries[1..])
  {
    assert forall i | 0 < i < |entries| :: entries[i] == entries[1..][i - 1];
  }

  lemma {:induction false} FirstOwnFile(entries: seq<Entry>, dirs: seq<string>)
    requires entries != []
    ensures FlatRoutes(OwnFiles(entries, dirs)) ==
            (if entries[0].File? then RouteOf(Join(dirs + [entries[0].name], '/')) else [])
            + FlatRoutes(OwnFiles(entries[1..], dirs))
  {
    hide RouteOf;
    var first := if entries[0].File? then [Join(dirs + [entries[0].name], '/')] else [];
    FlatRoutesSplit(first, OwnFiles(entries[1..], dirs));
    assert first != [] ==> first[1..] == [];
  }

  /** A directory's own files contribute its page's route, unless a slot hides it. */
  lemma {:induction false} OwnRoutes(entries: seq<Entry>, dirs: seq<string>)
    requires WellFormed(entries) && Free(dirs, '/')
    ensures FlatRoutes(OwnFiles(entries, dirs)) ==
            if HasPage(entries) && !HasSlot(dirs) then [OrRoot(Slashed(Filled(Visible(dirs))))] else []
  {
    if entries != [] {
      hide RouteOf, HasPage, HasSlot, OwnFiles, FlatRoutes;
      OwnRoutes(entries[1..], dirs);
      RouteOfPage(dirs, entries[0].name);
      FirstOwnFile(entries, dirs);
      FirstPage(entries);
    }
  }

  /** Under a slot, at any depth, the flat pass finds nothing. */
  lemma {:induction false} NothingUnderSlots(entries: seq<Entry>, dirs: seq<string>)
    requires WellFormed(entries) && Free(dirs, '/') && HasSlot(dirs)
    ensures FlatRoutes(Files(entries, dirs)) == []
    decreases entries, 1
  {
    OwnRoutes(entries, dirs);
    NothingInFoldersUnderSlots(entries, dirs);
    FlatRoutesSplit(OwnFiles(entries, dirs), FolderFiles(entries, dirs));
  }

  lemma {:induction false} NothingInFoldersUnderSlots(entries: seq<Entry>, dirs: seq<string>)
    requires WellFormed(entries) && Free(dirs, '/') && HasSlot(dirs)
    ensures FlatRoutes(FolderFiles(entries, dirs)) == []
    decreases entries, 0
  {
    if entries != [] {
      assert forall i | 0 < i < |entries| :: entries[i] == entries[1..][i - 1];
      NothingInFoldersUnderSlots(entries[1..], dirs);
      if entries[0].Folder? {
        SlotsStay(dirs, entries[0].name);
        NothingUnderSlots(entries[0].entries, dirs + [entries[0].name]);
      }
      FlatRoutesSplit(EntryFiles(entries[0], dirs), FolderFiles(entries[1..], dirs));
    }
  }

  /** Below any directory outside slots the filled patterns are the flat routes, in the same order. */
  lemma {:induction false} WalkMatchesFiles(entries: seq<Entry>, dirs: seq<string>)
    requires WellFormed(entries) && Free(dirs, '/') && !HasSlot(dirs)
    ensures FillAll(Patterns(entries, Slashed(Visible(dirs)))) == FlatRoutes(Files(entries, dirs))
    decreases entries, 1
  {
    var prefix := Slashed(Visible(dirs));
    VisibleIsFree(dirs);
    FillOfSlashed(Visible(dirs));
    OwnRoutes(entries, dirs);
    FoldersMatchFiles(entries, dirs);
    FlatRoutesSplit(OwnFiles(entries, dirs), FolderFiles(entries, dirs));
    FillAllSplits(if HasPage(entries) then [OrRoot(prefix)] else [], FolderPatterns(entries, prefix));
    assert [OrRoot(prefix)][1..] == [];
    assert FillAll([OrRoot(prefix)]) == [Fill(OrRoot(prefix))];
  }

  lemma {:induction false} FoldersMatchFiles(entries: seq<Entry>, dirs: seq<string>)
    requires WellFormed(entries) && Free(dirs, '/') && !HasSlot(dirs)
    ensures FillAll(FolderPatterns(entries, Slashed(Visible(dirs)))) == FlatRoutes(FolderFiles(entries, dirs))
    decreases entries, 0
  {
    if entries != [] {
      var prefix, entry := Slashed(Visible(dirs)), entries[0];
      assert forall i | 0 < i < |entries| :: entries[i] == entries[1..][i - 1];
      FoldersMatchFiles(entries[1..], dirs);
      FlatRoutesSplit(EntryFiles(entry, dirs), FolderFiles(entries[1..], dirs));
      FillAllSplits(EntryPatterns(entry, prefix), FolderPatterns(entries[1..], prefix));
      if entry.Folder? {
        SlotsStay(dirs, entry.name);
        PrefixFollowsFolders(dirs, entry.name);
        if IsSlot(entry.name) {
          NothingUnderSlots(entry.entries, dirs + [entry.name]);
        } else {
          WalkMatchesFiles(entry.entries, dirs + [entry.name]);
        }
      }
    }
  }

  /** Moving one file to the front of the list reorders its routes and no more. */
  lemma {:induction false} FlatRoutesMoveToFront(before: seq<string>, x: string, after: seq<string>)
    ensures multiset(FlatRoutes(before + ([x] + after))) == multiset(FlatRoutes([x] + (before + after)))
  {
    FlatRoutesSplit(before, [x] + after);
    FlatRoutesSplit([x], after);
    FlatRoutesSplit([x], before + after);
    FlatRoutesSplit(before, after);
    hide FlatRoutes;
  }

  lemma RestIsPermuted(x: string, rest: seq<string>, before: seq<string>, after: seq<string>)
    requires multiset([x] + rest) == multiset(before + ([x] + after))
    ensures multiset(rest) == multiset(before + after)
  {
    assert multiset([x] + rest) == multiset{x} + multiset(rest);
    assert multiset(before + ([x] + after)) == multiset{x} + multiset(before + after);
    assert multiset(rest) == multiset([x] + rest) - multiset{x};
    assert multiset(before + after) == multiset(before + ([x] + after)) - multiset{x};
  }

  /** The flat pass depends on the order of the list only in the order of its result. */
  lemma {:induction false} FlatRoutesOfPermutation(files: seq<string>, listed: seq<string>)
    requires multiset(files) == multiset(listed)
    ensures multiset(FlatRoutes(files)) == multiset(FlatRoutes(listed))
  {
    hide FlatRoutes;
    if files == [] {
      assert listed == [] by {
        assert |multiset(listed)| == 0;
      }
    } else {
      var x, rest := files[0], files[1..];
      assert files == [x] + rest;
      assert x in multiset(listed);
      var i :| 0 <= i < |listed| && listed[i] == x;
      var before, after := listed[..i], listed[i + 1..];
      assert listed == before + ([x] + after);
      RestIsPermuted(x, rest, before, after);
      FlatRoutesOfPermutation(rest, before + after);
      FlatRoutesMoveToFront(before, x, after);
      FlatRoutesSplit([x], rest);
      FlatRoutesSplit([x], before + after);
    }
  }

  /**
   For every directory tree, however its files are listed, the flat discovery yields the same
   multiset of routes as the recursive one with its parameters filled.
   */
  lemma {:induction false} DiscoveriesAgree(tree: seq<Entry>, listed: seq<string>)
    requires WellFormed(tree)
    requires multiset(listed) == multiset(Files(tree, []))
    ensures multiset(FillAll(Patterns(tree, ""))) == multiset(FlatRoutes(listed))
  {
    WalkMatchesFiles(tree, []);
    FlatRoutesOfPermutation(Files(tree, []), listed);
  }

  // ----- livePath -----

  /** The fixture values by parameter segment; `Err` names the first segment that has none. */
  function LiveSegments(segments: seq<string>, fills: map<string, string>): Result<seq<string>, string> {
    if segments == [] then Ok([])
    else if IsParameter(segments[0]) && segments[0] !in fills then Err(segments[0])
    else
      var rest := LiveSegments(segments[1..], fills);
      if rest.Err? then rest
      else Ok([if IsParameter(segments[0]) then fills[segments[0]] else segments[0]] + rest.value)
  }

  function LivePath(pattern: string, fills: map<string, string>): Result<string, string> {
    var live := LiveSegments(Split(pattern, '/'), fills);
    if live.Err? then Err(live.error) else Ok(Join(live.value, '/'))
  }

  lemma {:induction false} LiveSegmentsPointwise(segments: seq<string>, fills: map<string, string>)
    ensures var live := LiveSegments(segments, fills);
            && (live.Err? <==> exists i :: 0 <= i < |segments| && IsParameter(segments[i]) && segments[i] !in fills)
            && (live.Ok? ==>
                  && |live.value| == |segments|
                  && forall i | 0 <= i < |segments| ::
                       if IsParameter(segments[i]) then segments[i] in fills && live.value[i] == fills[segments[i]]
                       else live.value[i] == segments[i])
  {
    if segments != [] {
      LiveSegmentsPointwise(segments[1..], fills);
      assert forall i | 0 < i < |segments| :: segments[i] == segments[1..][i - 1];
    }
  }

  /**
   A live path has the pattern's segments, each parameter replaced by its fixture and no other
   touched; it throws exactly when a parameter has no fixture.
   */
  lemma {:induction false} LivePathKeepsSegments(pattern: string, fills: map<string, string>)
    requires forall k | k in fills :: '/' !in fills[k]
    ensures var segments, live := Split(pattern, '/'), LivePath(pattern, fills);
            && (live.Err? <==> exists i :: 0 <= i < |segments| && IsParameter(segments[i]) && segments[i] !in fills)
            && (live.Ok? ==>
                  var filled := Split(live.value, '/');
                  && |filled| == |segments|
                  && forall i | 0 <= i < |segments| ::
                       if IsParameter(segments[i]) then segments[i] in fills && filled[i] == fills[segments[i]]
                       else filled[i] == segments[i])
  {
    var segments := Split(pattern, '/');
    JoinOfSplit(pattern, '/');
    LiveSegmentsPointwise(segments, fills);
    var live := LiveSegments(segments, fills);
    if live.Ok? {
      SplitOfJoin(live.value, '/');
    }
  }
}
