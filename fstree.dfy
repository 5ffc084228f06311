/** The watched directory tree, and the recursive walks over it that count
    files (`countTotalFiles`, both generations) and that collect the sorted
    input of the aggregate SHA-256 of a dataset (`hashDirectory`). */
module FsTree {
  import opened Wrappers
  import opened Text

  /** A directory entry as `readdir` with file types reports it. A
      non-directory entry is a regular file or something else (a socket, a
      link); `mtime` is what `stat` reports (`None`: `stat` fails). A
      directory that cannot be listed makes `readdir` throw. */
  datatype Entry =
    | File(name: string, regular: bool, mtime: Option<int>, content: string)
    | Dir(name: string, readable: bool, children: seq<Entry>)

  /** `path.join(dir, name)` for a name without separators. */
  function PathJoin(dir: string, name: string): string
  {
    dir + "/" + name
  }

  // ---------------------------------------------------------------------
  // countTotalFiles, current generation: every level catches its own
  // errors (an unreadable directory counts 0), the recursive call drops the
  // extension list, and a file counts when it is regular and, with a list,
  // '.' + the text after its last '.' is in it (case-sensitive).

  function CountedHere(e: Entry, exts: Option<seq<string>>): nat
    decreases e, 0
  {
    match e
    case Dir(_, readable, cs) => if readable then CountChildren(cs, None) else 0
    case File(name, regular, _, _) =>
      if !regular then 0
      else if exts.None? then 1
      else if "." + LastPiece(name, '.') in exts.value then 1
      else 0
  }

  function CountChildren(es: seq<Entry>, exts: Option<seq<string>>): nat
    decreases es
  {
    if es == [] then 0 else CountedHere(es[0], exts) + CountChildren(es[1..], exts)
  }

  /** What `countTotalFiles` returns for the directory `root` (`None`: the
      path does not exist; a file in its place also makes `readdir` throw). */
  function CountSpec(root: Option<Entry>, exts: Option<seq<string>>): nat
  {
    if root.None? || root.value.File? || !root.value.readable then 0
    else CountChildren(root.value.children, exts)
  }

  /** The current `countTotalFiles`. */
  method CountTotalFiles(root: Option<Entry>, exts: Option<seq<string>>) returns (fileCount: nat)
    ensures fileCount == CountSpec(root, exts)
  {
    if root.None? || root.value.File? || !root.value.readable {
      return 0;
    }
    fileCount := CountListed(root.value.children, exts);
  }

  /** The body of `countTotalFiles` once `readdirSync` has listed `files`. */
  method CountListed(files: seq<Entry>, exts: Option<seq<string>>) returns (fileCount: nat)
    ensures fileCount == CountChildren(files, exts)
    decreases files
  {
    fileCount := 0;
    var i := 0;
    while i < |files|
      invariant 0 <= i <= |files|
      invariant fileCount + CountChildren(files[i..], exts) == CountChildren(files, exts)
    {
      var file := files[i];
      assert files[i..][1..] == files[i + 1..];
      if file.Dir? {
        if file.readable {
          var sub := CountListed(file.children, None);
          fileCount := fileCount + sub;
        }
      } else if file.regular {
        if exts.Some? {
          if "." + LastPiece(file.name, '.') in exts.value {
            fileCount := fileCount + 1;
          }
        } else {
          fileCount := fileCount + 1;
        }
      }
      i := i + 1;
    }
  }

  // ---------------------------------------------------------------------
  // countTotalFiles, first generation: no error handling, every regular
  // file counts. `None` stands for the thrown error.

  function LegacyCountHere(e: Entry): Option<nat>
    decreases e, 0
  {
    match e
    case Dir(_, readable, cs) => if readable then LegacyCountChildren(cs) else None
    case File(_, regular, _, _) => Some(if regular then 1 else 0)
  }

  function LegacyCountChildren(es: seq<Entry>): Option<nat>
    decreases es
  {
    if es == [] then Some(0)
    else
      match LegacyCountHere(es[0])
      case None => None
      case Some(k) =>
        match LegacyCountChildren(es[1..])
        case None => None
        case Some(n) => Some(k + n)
  }

  function LegacyCountSpec(root: Option<Entry>): Option<nat>
  {
    if root.None? || root.value.File? || !root.value.readable then None
    else LegacyCountChildren(root.value.children)
  }

  /** The first-generation `countTotalFiles`; `None` when it throws. */
  method CountTotalFilesLegacy(root: Option<Entry>) returns (r: Option<nat>)
    ensures r == LegacyCountSpec(root)
  {
    if root.None? || root.value.File? || !root.value.readable {
      return None;
    }
    r := LegacyCountListed(root.value.children);
  }

  method LegacyCountListed(files: seq<Entry>) returns (r: Option<nat>)
    ensures r == LegacyCountChildren(files)
    decreases files
  {
    var fileCount := 0;
    var i := 0;
    while i < |files|
      invariant 0 <= i <= |files|
      invariant LegacyCountChildren(files) ==
        (match LegacyCountChildren(files[i..]) case None => None case Some(n) => Some(fileCount + n))
    {
      var file := files[i];
      assert files[i..][1..] == files[i + 1..];
      if file.Dir? {
        if !file.readable {
          return None;
        }
        var sub := LegacyCountListed(file.children);
        if sub.None? {
          return None;
        }
        fileCount := fileCount + sub.value;
      } else if file.regular {
        fileCount := fileCount + 1;
      }
      i := i + 1;
    }
    assert files[i..] == [];
    return Some(fileCount);
  }

  /** Every directory in the tree can be listed. */
  predicate AllReadable(e: Entry)
    decreases e, 1
  {
    e.Dir? ==> e.readable && forall i :: 0 <= i < |e.children| ==> AllReadable(e.children[i])
  }

  /** On a fully readable tree the two generations count the same files when
      no extension list is given; otherwise the first generation throws. */
  lemma {:induction false} CountGenerationsAgree(root: Entry)
    requires root.Dir?
    ensures AllReadable(root) ==> LegacyCountSpec(Some(root)) == Some(CountSpec(Some(root), None))
    ensures !AllReadable(root) ==> LegacyCountSpec(Some(root)).None?
  {
    if root.readable {
      ChildrenAgree(root.children);
    }
  }

  lemma {:induction false} ChildrenAgree(es: seq<Entry>)
    ensures (forall i :: 0 <= i < |es| ==> AllReadable(es[i])) ==> LegacyCountChildren(es) == Some(CountChildren(es, None))
    ensures !(forall i :: 0 <= i < |es| ==> AllReadable(es[i])) ==> LegacyCountChildren(es).None?
    decreases es
  {
    if es != [] {
      var e := es[0];
      if e.Dir? && e.readable {
        ChildrenAgree(e.children);
      }
      ChildrenAgree(es[1..]);
      assert forall i :: 1 <= i < |es| ==> es[1..][i - 1] == es[i];
    }
  }

  /** The extension list only narrows the top level: the filtered count
      never exceeds the unfiltered one. */
  lemma {:induction false} FilterNarrowsCount(es: seq<Entry>, exts: seq<string>)
    ensures CountChildren(es, Some(exts)) <= CountChildren(es, None)
    decreases es
  {
    if es != [] {
      FilterNarrowsCount(es[1..], exts);
    }
  }

  // ---------------------------------------------------------------------
  // hashDirectory (first generation).

  /** A file fed to the aggregate hash: its path, then the hash of its
      content. SHA-256 is modelled as injective, so a file's content stands
      for its content hash. */
  datatype Found = Found(path: string, content: string)

  /** `path.extname(name).toLowerCase()` is one of the lower-cased
      extensions. */
  predicate ExtensionMatches(name: string, exts: seq<string>)
  {
    Lower(ExtName(name)) in seq(|exts|, i requires 0 <= i < |exts| => Lower(exts[i]))
  }

  /** `walkDirectory`: every non-directory entry below `dir` whose extension
      matches, appended to `acc` in traversal order; `None` when a
      directory cannot be listed (the walk throws). */
  function WalkSpec(dir: string, es: seq<Entry>, exts: seq<string>, acc: seq<Found>): Option<seq<Found>>
    decreases es
  {
    if es == [] then Some(acc)
    else
      var e := es[0];
      var full := PathJoin(dir, e.name);
      match e
      case Dir(_, readable, cs) =>
        if !readable then None
        else
          (match WalkSpec(full, cs, exts, acc)
           case None => None
           case Some(acc') => WalkSpec(dir, es[1..], exts, acc'))
      case File(name, _, _, content) =>
        WalkSpec(dir, es[1..], exts, if ExtensionMatches(name, exts) then acc + [Found(full, content)] else acc)
  }

  /** `walkDirectory`, pushing onto `allFiles`. */
  method Walk(dir: string, entries: seq<Entry>, exts: seq<string>, allFiles: seq<Found>) returns (r: Option<seq<Found>>)
    ensures r == WalkSpec(dir, entries, exts, allFiles)
    decreases entries
  {
    var files := allFiles;
    var i := 0;
    while i < |entries|
      invariant 0 <= i <= |entries|
      invariant WalkSpec(dir, entries, exts, allFiles) == WalkSpec(dir, entries[i..], exts, files)
    {
      var entry := entries[i];
      var fullPath := PathJoin(dir, entry.name);
      assert entries[i..][1..] == entries[i + 1..];
      if entry.Dir? {
        if !entry.readable {
          return None;
        }
        var sub := Walk(fullPath, entry.children, exts, files);
        if sub.None? {
          return None;
        }
        files := sub.value;
      } else if ExtensionMatches(entry.name, exts) {
        files := files + [Found(fullPath, entry.content)];
      }
      i := i + 1;
    }
    return Some(files);
  }

  // Lexicographic order of paths, as the default `Array.prototype.sort`
  // compares strings (by code point here).

  predicate LexLe(a: string, b: string)
    decreases |a|
  {
    |a| == 0 || (|b| > 0 && (a[0] < b[0] || (a[0] == b[0] && LexLe(a[1..], b[1..]))))
  }

  lemma {:induction false} LexTotal(a: string, b: string)
    ensures LexLe(a, b) || LexLe(b, a)
    decreases |a|
  {
    if |a| > 0 && |b| > 0 && a[0] == b[0] {
      LexTotal(a[1..], b[1..]);
    }
  }

  lemma {:induction false} LexReflexive(a: string)
    ensures LexLe(a, a)
    decreases |a|
  {
    if |a| > 0 {
      LexReflexive(a[1..]);
    }
  }

  lemma {:induction false} LexAntisymmetric(a: string, b: string)
    requires LexLe(a, b) && LexLe(b, a)
    ensures a == b
    decreases |a|
  {
    if |a| > 0 {
      LexAntisymmetric(a[1..], b[1..]);
      assert a == [a[0]] + a[1..] && b == [b[0]] + b[1..];
    }
  }

  lemma {:induction false} LexTransitive(a: string, b: string, c: string)
    requires LexLe(a, b) && LexLe(b, c)
    ensures LexLe(a, c)
    decreases |a|
  {
    if |a| > 0 && a[0] == b[0] && b[0] == c[0] {
      LexTransitive(a[1..], b[1..], c[1..]);
    }
  }

  predicate SortedByPath(s: seq<Found>)
  {
    forall i, j :: 0 <= i < j < |s| ==> LexLe(s[i].path, s[j].path)
  }

  function Insert(x: Found, s: seq<Found>): seq<Found>
  {
    if s == [] then [x]
    else if LexLe(x.path, s[0].path) then [x] + s
    else [s[0]] + Insert(x, s[1..])
  }

  lemma {:induction false} InsertPermutes(x: Found, s: seq<Found>)
    ensures multiset(Insert(x, s)) == multiset(s) + multiset{x}
  {
    if s != [] && !LexLe(x.path, s[0].path) {
      InsertPermutes(x, s[1..]);
      assert s == [s[0]] + s[1..];
    }
  }

  lemma {:induction false} InsertSorted(x: Found, s: seq<Found>)
    requires SortedByPath(s)
    ensures SortedByPath(Insert(x, s))
  {
    if s == [] {
    } else if LexLe(x.path, s[0].path) {
      forall j | 0 <= j < |s| ensures LexLe(x.path, s[j].path) {
        if j > 0 { LexTransitive(x.path, s[0].path, s[j].path); }
      }
    } else {
      LexTotal(x.path, s[0].path);
      var rest := Insert(x, s[1..]);
      InsertSorted(x, s[1..]);
      InsertPermutes(x, s[1..]);
      forall j | 0 <= j < |rest| ensures LexLe(s[0].path, rest[j].path) {
        assert rest[j] in multiset(rest);
        if rest[j] != x {
          assert rest[j] in s[1..];
        }
      }
    }
  }

  /** `allFiles.sort()`: a permutation ordered by path. */
  function SortByPath(s: seq<Found>): (r: seq<Found>)
    ensures SortedByPath(r) && multiset(r) == multiset(s)
  {
    if s == [] then []
    else
      var rest := SortByPath(s[1..]);
      InsertSorted(s[0], rest);
      InsertPermutes(s[0], rest);
      assert s == [s[0]] + s[1..];
      Insert(s[0], rest)
  }

  predicate DistinctPaths(s: seq<Found>)
  {
    forall i, j :: 0 <= i < j < |s| ==> s[i].path != s[j].path
  }

  lemma {:induction false} InsertDistinct(x: Found, s: seq<Found>)
    requires DistinctPaths(s) && forall j :: 0 <= j < |s| ==> s[j].path != x.path
    ensures DistinctPaths(Insert(x, s))
  {
    if s != [] && !LexLe(x.path, s[0].path) {
      InsertDistinct(x, s[1..]);
      var rest := Insert(x, s[1..]);
      InsertPermutes(x, s[1..]);
      forall j | 0 <= j < |rest| ensures rest[j].path != s[0].path {
        assert rest[j] in multiset(rest);
        if rest[j] != x {
          assert rest[j] in s[1..];
        }
      }
    }
  }

  lemma {:induction false} SortKeepsDistinct(s: seq<Found>)
    requires DistinctPaths(s)
    ensures DistinctPaths(SortByPath(s))
  {
    if s != [] {
      SortKeepsDistinct(s[1..]);
      var rest := SortByPath(s[1..]);
      forall j | 0 <= j < |rest| ensures rest[j].path != s[0].path {
        assert rest[j] in multiset(s[1..]);
      }
      InsertDistinct(s[0], rest);
    }
  }

  lemma MultisetOfTail(s: seq<Found>)
    requires s != []
    ensures multiset(s[1..]) == multiset(s) - multiset{s[0]}
  {
    assert s == [s[0]] + s[1..];
  }

  /** A sorted permutation of files with distinct paths is unique. */
  lemma {:induction false} SortedPermutationUnique(a: seq<Found>, b: seq<Found>)
    requires SortedByPath(a) && SortedByPath(b) && multiset(a) == multiset(b) && DistinctPaths(a)
    ensures a == b
  {
    assert |a| == |multiset(a)| == |multiset(b)| == |b|;
    if a != [] {
      assert a[0] in multiset(b) && b[0] in multiset(a);
      var i :| 0 <= i < |b| && b[i] == a[0];
      var k :| 0 <= k < |a| && a[k] == b[0];
      LexReflexive(a[0].path);
      assert LexLe(b[0].path, a[0].path) by { if i > 0 { assert LexLe(b[0].path, b[i].path); } }
      assert LexLe(a[0].path, b[0].path) by { if k > 0 { assert LexLe(a[0].path, a[k].path); } }
      LexAntisymmetric(a[0].path, b[0].path);
      assert k == 0;
      MultisetOfTail(a);
      MultisetOfTail(b);
      SortedPermutationUnique(a[1..], b[1..]);
    }
  }

  /** The sequence of `globalHash.update` arguments: each file's path, then
      its content hash. */
  function Updates(files: seq<Found>): (u: seq<string>)
    ensures |u| == 2 * |files|
  {
    if files == [] then [] else [files[0].path, files[0].content] + Updates(files[1..])
  }

  /** The outcome of `hashDirectory`: `null`, a digest (represented by the
      exact input fed to SHA-256), or a thrown error. */
  datatype DirHash = NullHash | Digest(input: seq<string>) | HashThrew

  function HashSpec(target: Option<Entry>, path: string, exts: seq<string>): DirHash
  {
    if target.None? then NullHash
    else
      match target.value
      case Dir(_, readable, cs) =>
        if !readable then HashThrew
        else
          (match WalkSpec(path, cs, exts, [])
           case None => HashThrew
           case Some(all) => HashOf(all))
      case File(_, regular, _, content) =>
        HashOf(if regular && ExtensionMatches(path, exts) then [Found(path, content)] else [])
  }

  /** The digest of the collected files, `null` when there are none. */
  function HashOf(all: seq<Found>): DirHash
  {
    if all == [] then NullHash else Digest(Updates(SortByPath(all)))
  }

  /** `hashDirectory(path, extensions)`, for `target`, what `lstat` finds at
      `path`. */
  method HashDirectory(target: Option<Entry>, path: string, exts: seq<string>) returns (r: DirHash)
    ensures r == HashSpec(target, path, exts)
  {
    if target.None? {
      return NullHash;
    }
    var allFiles: seq<Found> := [];
    var stats := target.value;
    if stats.Dir? {
      if !stats.readable {
        return HashThrew;
      }
      var walked := Walk(path, stats.children, exts, allFiles);
      if walked.None? {
        return HashThrew;
      }
      allFiles := walked.value;
      r := HashFiles(allFiles);
    } else {
      if stats.regular && ExtensionMatches(path, exts) {
        allFiles := [Found(path, stats.content)];
      }
      r := HashFiles(allFiles);
    }
  }

  /** The part of `hashDirectory` after the walk: sort, then feed. */
  method HashFiles(allFiles: seq<Found>) returns (r: DirHash)
    ensures r == HashOf(allFiles)
  {
    if |allFiles| == 0 {
      return NullHash;
    }
    var sorted := SortByPath(allFiles);
    var globalHash := Feed(sorted);
    return Digest(globalHash);
  }

  /** The loop that feeds each sorted file's path and content hash to the
      global hash. */
  method Feed(sorted: seq<Found>) returns (globalHash: seq<string>)
    ensures globalHash == Updates(sorted)
  {
    globalHash := [];
    var i := 0;
    while i < |sorted|
      invariant 0 <= i <= |sorted|
      invariant globalHash + Updates(sorted[i..]) == Updates(sorted)
    {
      assert sorted[i..][1..] == sorted[i + 1..];
      globalHash := globalHash + [sorted[i].path, sorted[i].content];
      i := i + 1;
    }
    assert sorted[i..] == [];
  }

  /** The digest input determines the sorted file list: two different file
      lists never feed the same input. */
  lemma {:induction false} UpdatesInjective(a: seq<Found>, b: seq<Found>)
    requires Updates(a) == Updates(b)
    ensures a == b
  {
    if a != [] {
      assert Updates(a)[..2] == [a[0].path, a[0].content];
      assert Updates(b)[..2] == [b[0].path, b[0].content];
      assert Updates(a)[2..] == Updates(a[1..]);
      assert Updates(b)[2..] == Updates(b[1..]);
      UpdatesInjective(a[1..], b[1..]);
      assert a == [a[0]] + a[1..] && b == [b[0]] + b[1..];
    }
  }

  /** The digest does not depend on the order in which the files were
      enumerated. */
  lemma {:induction false} DigestIgnoresEnumerationOrder(a: seq<Found>, b: seq<Found>)
    requires multiset(a) == multiset(b) && DistinctPaths(a)
    ensures Updates(SortByPath(a)) == Updates(SortByPath(b))
  {
    SortKeepsDistinct(a);
    SortedPermutationUnique(SortByPath(a), SortByPath(b));
  }

  /** Renaming a file changes the digest, even when no content changes. */
  lemma RenameChangesDigest(files: seq<Found>, k: nat, newPath: string)
    requires k < |files| && newPath != files[k].path
    ensures Updates(files) != Updates(files[k := Found(newPath, files[k].content)])
  {
    if Updates(files) == Updates(files[k := Found(newPath, files[k].content)]) {
      UpdatesInjective(files, files[k := Found(newPath, files[k].content)]);
    }
  }
}
