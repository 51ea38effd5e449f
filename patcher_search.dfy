/** The extracted archive as a directory tree, and the three depth-first
    searches of `Patcher` (src/main/modules/patcher/patch.ts) for
    `rumScript.js`, `config.js` and `events.js`. */
module PatcherSearch {
  import opened Wrappers

  /** A directory entry; `children` keeps the order `readdirSync` lists them in. */
  datatype Entry = File(name: string, content: string) | Dir(name: string, children: seq<Entry>)

  /** A path below the search root, one name per level: the result
      `path.join(startDir, n1, ..., nk)` is modelled as `[n1, ..., nk]`. */
  type Path = seq<string>

  const RumScriptName := "rumScript.js"
  const ConfigName := "config.js"
  const EventsName := "events.js"

  /** Directory names the events search does not descend into. */
  const EventsPruned: set<string> := {"node_modules", "constants"}

  function Last(p: Path): string
    requires |p| > 0
  {
    p[|p| - 1]
  }

  // ---------------------------------------------------------------------------
  // Well-formed trees and file access

  /** Names are unique within every directory, as on a real file system. */
  predicate UniqueNames(entries: seq<Entry>)
    decreases entries
  {
    && (forall i, j :: 0 <= i < j < |entries| ==> entries[i].name != entries[j].name)
    && (forall i :: 0 <= i < |entries| ==> entries[i].Dir? ==> UniqueNames(entries[i].children))
  }

  /** The entry called `n` in a listing (the first one, should names repeat). */
  function ChildNamed(entries: seq<Entry>, n: string): (r: Option<Entry>)
    ensures r.Some? ==> r.value in entries && r.value.name == n
    ensures r.None? ==> forall i :: 0 <= i < |entries| ==> entries[i].name != n
  {
    if entries == [] then None
    else if entries[0].name == n then Some(entries[0])
    else ChildNamed(entries[1..], n)
  }

  /** `fs.readFileSync(path)`: the content of the file at `p`, or `None` when
      `p` does not lead to a file. */
  function FileContent(entries: seq<Entry>, p: Path): Option<string>
    decreases |p|
  {
    if p == [] then None
    else match ChildNamed(entries, p[0])
      case None => None
      case Some(x) =>
        if |p| == 1 then (if x.File? then Some(x.content) else None)
        else if x.Dir? then FileContent(x.children, p[1..])
        else None
  }

  /** `fs.writeFileSync(path, c)`: replaces the content of the file at `p`;
      any other tree is returned as it is. */
  function WriteFile(entries: seq<Entry>, p: Path, c: string): seq<Entry>
    decreases |p|, |entries|
  {
    if p == [] || entries == [] then entries
    else if entries[0].name != p[0] then [entries[0]] + WriteFile(entries[1..], p, c)
    else if |p| == 1 then
      (if entries[0].File? then [File(entries[0].name, c)] + entries[1..] else entries)
    else if entries[0].Dir? then
      [Dir(entries[0].name, WriteFile(entries[0].children, p[1..], c))] + entries[1..]
    else entries
  }

  /** Two trees that differ at most in file contents. */
  predicate SameShape(a: seq<Entry>, b: seq<Entry>)
    decreases a
  {
    && |a| == |b|
    && forall i :: 0 <= i < |a| ==>
         && a[i].name == b[i].name
         && a[i].Dir? == b[i].Dir?
         && (a[i].Dir? ==> SameShape(a[i].children, b[i].children))
  }

  lemma {:induction false} SameShapeUniqueNames(a: seq<Entry>, b: seq<Entry>)
    requires SameShape(a, b) && UniqueNames(a)
    ensures UniqueNames(b)
    decreases a
  {
    forall i | 0 <= i < |b| && b[i].Dir?
      ensures UniqueNames(b[i].children)
    {
      SameShapeUniqueNames(a[i].children, b[i].children);
    }
  }

  lemma {:induction false} WriteFileSameShape(entries: seq<Entry>, p: Path, c: string)
    ensures SameShape(entries, WriteFile(entries, p, c))
    decreases |p|, |entries|
  {
    var w := WriteFile(entries, p, c);
    if p == [] || entries == [] {
      SameShapeRefl(entries);
    } else if entries[0].name != p[0] {
      WriteFileSameShape(entries[1..], p, c);
      SameShapeRefl(entries);
      assert w == [entries[0]] + WriteFile(entries[1..], p, c);
      forall i | 0 <= i < |entries| && entries[i].Dir?
        ensures SameShape(entries[i].children, w[i].children)
      {
        if i > 0 {
          assert w[i] == WriteFile(entries[1..], p, c)[i - 1];
          assert entries[i] == entries[1..][i - 1];
        }
      }
    } else if |p| == 1 || !entries[0].Dir? {
      SameShapeRefl(entries);
    } else {
      WriteFileSameShape(entries[0].children, p[1..], c);
      SameShapeRefl(entries);
    }
  }

  lemma {:induction false} SameShapeRefl(a: seq<Entry>)
    ensures SameShape(a, a)
    decreases a
  {
    forall i | 0 <= i < |a| && a[i].Dir?
      ensures SameShape(a[i].children, a[i].children)
    {
      SameShapeRefl(a[i].children);
    }
  }

  /** After a write, the written file holds the new content. */
  lemma {:induction false} WriteFileReadBack(entries: seq<Entry>, p: Path, c: string)
    requires FileContent(entries, p).Some?
    ensures FileContent(WriteFile(entries, p, c), p) == Some(c)
    decreases |p|, |entries|
  {
    if entries[0].name != p[0] {
      assert ChildNamed(entries, p[0]) == ChildNamed(entries[1..], p[0]);
      assert FileContent(entries[1..], p) == FileContent(entries, p);
      WriteFileReadBack(entries[1..], p, c);
      var w := WriteFile(entries, p, c);
      assert w[1..] == WriteFile(entries[1..], p, c);
      assert ChildNamed(w, p[0]) == ChildNamed(w[1..], p[0]);
    } else if |p| > 1 {
      WriteFileReadBack(entries[0].children, p[1..], c);
    }
  }

  /** A write leaves every other file's content as it was. */
  lemma {:induction false} WriteFileOthers(entries: seq<Entry>, p: Path, c: string, q: Path)
    requires q != p
    ensures FileContent(WriteFile(entries, p, c), q) == FileContent(entries, q)
    decreases |p|, |entries|
  {
    var w := WriteFile(entries, p, c);
    if p == [] || entries == [] || q == [] {
    } else if entries[0].name != p[0] {
      WriteFileOthers(entries[1..], p, c, q);
      assert w[1..] == WriteFile(entries[1..], p, c);
      if entries[0].name != q[0] {
        assert ChildNamed(w, q[0]) == ChildNamed(w[1..], q[0]);
        assert ChildNamed(entries, q[0]) == ChildNamed(entries[1..], q[0]);
      }
    } else if |p| == 1 {
      if entries[0].File? && q[0] == p[0] {
        assert |q| != 1;
      }
    } else if entries[0].Dir? {
      if q[0] == p[0] && |q| > 1 {
        WriteFileOthers(entries[0].children, p[1..], c, q[1..]);
      }
    }
  }

  /** Writing the same file twice leaves the second content. */
  lemma {:induction false} WriteFileTwice(entries: seq<Entry>, p: Path, a: string, b: string)
    ensures WriteFile(WriteFile(entries, p, a), p, b) == WriteFile(entries, p, b)
    decreases |p|, |entries|
  {
    if p != [] && entries != [] {
      var w := WriteFile(entries, p, a);
      if entries[0].name != p[0] {
        WriteFileTwice(entries[1..], p, a, b);
        assert w[0] == entries[0] && w[1..] == WriteFile(entries[1..], p, a);
      } else if |p| > 1 && entries[0].Dir? {
        WriteFileTwice(entries[0].children, p[1..], a, b);
        assert w[0].children == WriteFile(entries[0].children, p[1..], a);
        assert w[1..] == entries[1..];
      }
    }
  }

  // ---------------------------------------------------------------------------
  // The search and its reference definition

  /** Every file path in depth-first pre-order over listing order, not
      descending into directories named in `prune`. */
  function Files(entries: seq<Entry>, prune: set<string>): (r: seq<Path>)
    ensures forall p :: p in r ==> |p| > 0
    decreases entries
  {
    if entries == [] then []
    else match entries[0]
      case File(n, _) => [[n]] + Files(entries[1..], prune)
      case Dir(n, kids) =>
        (if n in prune then [] else Prefixed(n, Files(kids, prune))) + Files(entries[1..], prune)
  }

  /** Every path of `ps`, one level down in directory `n`. */
  function Prefixed(n: string, ps: seq<Path>): (r: seq<Path>)
    ensures |r| == |ps|
    ensures forall i :: 0 <= i < |ps| ==> r[i] == [n] + ps[i]
  {
    if ps == [] then [] else [[n] + ps[0]] + Prefixed(n, ps[1..])
  }

  /** The first path of `ps` whose last name is `name`. */
  function FirstNamed(ps: seq<Path>, name: string): (r: Option<Path>)
    ensures r.Some? ==> r.value in ps && |r.value| > 0 && Last(r.value) == name
    ensures r.None? ==> forall p :: p in ps && |p| > 0 ==> Last(p) != name
  {
    if ps == [] then None
    else if |ps[0]| > 0 && Last(ps[0]) == name then Some(ps[0])
    else FirstNamed(ps[1..], name)
  }

  /** The loop shared by `findRumScript`, `findConfig` and `findEvents`: walk the
      listing in order, search a subdirectory (unless its name is pruned) and
      return its hit at once; a file with the searched name is a hit. */
  function FindIn(entries: seq<Entry>, target: string, prune: set<string>): Option<Path>
    decreases entries
  {
    if entries == [] then None
    else match entries[0]
      case Dir(n, kids) =>
        if n in prune then FindIn(entries[1..], target, prune)
        else (match FindIn(kids, target, prune)
              case Some(p) => Some([n] + p)
              case None => FindIn(entries[1..], target, prune))
      case File(n, _) =>
        if n == target then Some([n]) else FindIn(entries[1..], target, prune)
  }

  lemma {:induction false} FirstNamedAppend(a: seq<Path>, b: seq<Path>, name: string)
    ensures FirstNamed(a + b, name) ==
            (if FirstNamed(a, name).Some? then FirstNamed(a, name) else FirstNamed(b, name))
  {
    if a != [] {
      assert (a + b)[0] == a[0];
      assert (a + b)[1..] == a[1..] + b;
      FirstNamedAppend(a[1..], b, name);
    } else {
      assert a + b == b;
    }
  }

  lemma {:induction false} FirstNamedPrefixed(n: string, ps: seq<Path>, name: string)
    requires forall p :: p in ps ==> |p| > 0
    ensures FirstNamed(Prefixed(n, ps), name) ==
            (match FirstNamed(ps, name) case Some(p) => Some([n] + p) case None => None)
  {
    if ps != [] {
      assert Prefixed(n, ps)[1..] == Prefixed(n, ps[1..]);
      assert Last([n] + ps[0]) == Last(ps[0]);
      FirstNamedPrefixed(n, ps[1..], name);
    }
  }

  /** The search returns the first file with the searched name in pre-order:
      a subdirectory is searched completely before its later siblings. */
  lemma {:induction false} FindInIsFirstInPreorder(entries: seq<Entry>, target: string, prune: set<string>)
    ensures FindIn(entries, target, prune) == FirstNamed(Files(entries, prune), target)
    decreases entries
  {
    if entries != [] {
      var rest := Files(entries[1..], prune);
      FindInIsFirstInPreorder(entries[1..], target, prune);
      match entries[0]
      case File(n, _) =>
        FirstNamedAppend([[n]], rest, target);
      case Dir(n, kids) =>
        if n in prune {
          FirstNamedAppend([], rest, target);
        } else {
          FindInIsFirstInPreorder(kids, target, prune);
          FirstNamedPrefixed(n, Files(kids, prune), target);
          FirstNamedAppend(Prefixed(n, Files(kids, prune)), rest, target);
        }
    }
  }

  /** No directory on the way to `p` has a pruned name. */
  predicate AvoidsDirs(p: Path, prune: set<string>) {
    forall k :: 0 <= k < |p| - 1 ==> p[k] !in prune
  }

  /** The pruned walk lists exactly the files of the full walk that do not lie
      below a pruned directory. */
  lemma {:induction false} FilesPruned(entries: seq<Entry>, prune: set<string>, p: Path)
    ensures p in Files(entries, prune) <==> p in Files(entries, {}) && AvoidsDirs(p, prune)
    decreases entries
  {
    if entries != [] {
      FilesPruned(entries[1..], prune, p);
      match entries[0]
      case File(n, _) =>
        assert AvoidsDirs([n], prune);
      case Dir(n, kids) =>
        var full := Files(kids, {});
        var pruned := Files(kids, prune);
        assert Files(entries, {}) == Prefixed(n, full) + Files(entries[1..], {});
        if |p| > 0 && p[0] == n {
          FilesPruned(kids, prune, p[1..]);
          assert p == [n] + p[1..];
          assert AvoidsDirs(p, prune) <==> (|p| > 1 ==> n !in prune) && AvoidsDirs(p[1..], prune) by {
            if AvoidsDirs(p[1..], prune) && (|p| > 1 ==> n !in prune) {
              forall k | 0 <= k < |p| - 1 ensures p[k] !in prune {
                if k > 0 { assert p[k] == p[1..][k - 1]; }
              }
            }
          }
        }
        PrefixedMember(n, full, p);
        PrefixedMember(n, pruned, p);
    }
  }

  lemma PrefixedMember(n: string, ps: seq<Path>, p: Path)
    ensures p in Prefixed(n, ps) <==> |p| > 0 && p[0] == n && p[1..] in ps
  {
    if p in Prefixed(n, ps) {
      var i :| 0 <= i < |ps| && Prefixed(n, ps)[i] == p;
      assert p[1..] == ps[i];
    }
    if |p| > 0 && p[0] == n && p[1..] in ps {
      var i :| 0 <= i < |ps| && ps[i] == p[1..];
      assert Prefixed(n, ps)[i] == p;
    }
  }

  /** Every path of the walk starts with a name listed at the top level. */
  lemma {:induction false} FilesStartListed(entries: seq<Entry>, prune: set<string>, p: Path)
    requires p in Files(entries, prune)
    ensures exists i :: 0 <= i < |entries| && entries[i].name == p[0]
    decreases entries
  {
    match entries[0]
    case File(n, _) =>
      if p != [n] {
        FilesStartListed(entries[1..], prune, p);
        var i :| 0 <= i < |entries[1..]| && entries[1..][i].name == p[0];
        assert entries[i + 1].name == p[0];
      }
    case Dir(n, kids) =>
      var first := if n in prune then [] else Prefixed(n, Files(kids, prune));
      if p in first {
        PrefixedMember(n, Files(kids, prune), p);
      } else {
        FilesStartListed(entries[1..], prune, p);
        var i :| 0 <= i < |entries[1..]| && entries[1..][i].name == p[0];
        assert entries[i + 1].name == p[0];
      }
  }

  /** In a well-formed tree every path of the walk leads to a file. */
  lemma UniqueNamesTail(entries: seq<Entry>)
    requires entries != [] && UniqueNames(entries)
    ensures UniqueNames(entries[1..])
  {
    forall i | 0 <= i < |entries[1..]| && entries[1..][i].Dir?
      ensures UniqueNames(entries[1..][i].children)
    {
      assert entries[1..][i] == entries[i + 1];
    }
  }

  /** A path that does not start at the first entry is looked up among the others. */
  lemma FileContentSkipHead(entries: seq<Entry>, p: Path)
    requires entries != [] && |p| > 0 && entries[0].name != p[0]
    ensures FileContent(entries, p) == FileContent(entries[1..], p)
  {
    assert ChildNamed(entries, p[0]) == ChildNamed(entries[1..], p[0]);
  }

  lemma {:induction false} FilesAreFiles(entries: seq<Entry>, prune: set<string>, p: Path)
    requires UniqueNames(entries)
    requires p in Files(entries, prune)
    ensures FileContent(entries, p).Some?
    decreases entries, 1
  {
    var rest := Files(entries[1..], prune);
    if p in rest {
      UniqueNamesTail(entries);
      FilesAreFiles(entries[1..], prune, p);
      FilesStartListed(entries[1..], prune, p);
      var i :| 0 <= i < |entries[1..]| && entries[1..][i].name == p[0];
      assert entries[1..][i] == entries[i + 1];
      FileContentSkipHead(entries, p);
    } else {
      FilesAreFilesHead(entries, prune, p);
    }
  }

  /** A listed path that is not listed under the later entries goes through
      the first one. */
  lemma {:induction false} FilesAreFilesHead(entries: seq<Entry>, prune: set<string>, p: Path)
    requires UniqueNames(entries) && entries != []
    requires p in Files(entries, prune) && p !in Files(entries[1..], prune)
    ensures FileContent(entries, p).Some?
    decreases entries, 0
  {
    match entries[0]
    case File(n, _) =>
      assert p == [n];
    case Dir(n, kids) =>
      assert n !in prune && p in Prefixed(n, Files(kids, prune));
      PrefixedMember(n, Files(kids, prune), p);
      FilesAreFiles(kids, prune, p[1..]);
      assert ChildNamed(entries, p[0]) == Some(entries[0]);
  }

  /** What any of the three searches returns, in a well-formed tree: the first
      file with the searched name in pre-order, a path to a file (not a
      directory) whose last name is the searched one and which passes through
      no pruned directory; `None` exactly when no such file exists. */
  lemma FindInSpec(entries: seq<Entry>, target: string, prune: set<string>)
    requires UniqueNames(entries)
    ensures FindIn(entries, target, prune) == FirstNamed(Files(entries, prune), target)
    ensures FindIn(entries, target, prune).Some? ==>
      var p := FindIn(entries, target, prune).value;
      |p| > 0 && Last(p) == target && FileContent(entries, p).Some? && AvoidsDirs(p, prune)
    ensures FindIn(entries, target, prune).None? <==>
      forall p :: p in Files(entries, {}) && AvoidsDirs(p, prune) ==> Last(p) != target
  {
    FindInIsFirstInPreorder(entries, target, prune);
    var r := FindIn(entries, target, prune);
    if r.Some? {
      FilesAreFiles(entries, prune, r.value);
      FilesPruned(entries, prune, r.value);
    }
    forall p | p in Files(entries, {}) && AvoidsDirs(p, prune)
      ensures p in Files(entries, prune)
    {
      FilesPruned(entries, prune, p);
    }
  }

  /** In a well-formed tree, a hit is a file whose name is the searched one. */
  lemma FoundIsFile(entries: seq<Entry>, target: string, prune: set<string>)
    requires UniqueNames(entries)
    ensures FindIn(entries, target, prune).Some? ==>
      var p := FindIn(entries, target, prune).value;
      |p| > 0 && Last(p) == target && FileContent(entries, p).Some?
  {
    FindInIsFirstInPreorder(entries, target, prune);
    var r := FindIn(entries, target, prune);
    if r.Some? {
      FilesAreFiles(entries, prune, r.value);
    }
  }

  /** A search for the same name gives the same answer in a tree that differs
      only in file contents. */
  lemma {:induction false} FindInSameShape(a: seq<Entry>, b: seq<Entry>, target: string, prune: set<string>)
    requires SameShape(a, b)
    ensures FindIn(a, target, prune) == FindIn(b, target, prune)
    decreases a
  {
    if a != [] {
      assert SameShape(a[1..], b[1..]) by {
        forall i | 0 <= i < |a[1..]|
          ensures a[1..][i] == a[i + 1] && b[1..][i] == b[i + 1]
        {}
      }
      FindInSameShape(a[1..], b[1..], target, prune);
      if a[0].Dir? {
        FindInSameShape(a[0].children, b[0].children, target, prune);
      }
    }
  }

  // ---------------------------------------------------------------------------
  // The three searches of patch.ts

  /** `findRumScript`: no directory is pruned. */
  function FindRumScript(root: seq<Entry>): (r: Option<Path>)
    ensures r == FirstNamed(Files(root, {}), RumScriptName)
  {
    FindInIsFirstInPreorder(root, RumScriptName, {});
    FindIn(root, RumScriptName, {})
  }

  /** `findConfig`: no directory is pruned. */
  function FindConfig(root: seq<Entry>): (r: Option<Path>)
    ensures r == FirstNamed(Files(root, {}), ConfigName)
  {
    FindInIsFirstInPreorder(root, ConfigName, {});
    FindIn(root, ConfigName, {})
  }

  /** `findEvents`: `node_modules` and `constants` directories are skipped,
      so a hit never lies below one of them. */
  function FindEvents(root: seq<Entry>): (r: Option<Path>)
    ensures r == FirstNamed(Files(root, EventsPruned), EventsName)
    ensures r.Some? ==> AvoidsDirs(r.value, EventsPruned)
  {
    FindInIsFirstInPreorder(root, EventsName, EventsPruned);
    var r := FindIn(root, EventsName, EventsPruned);
    if r.Some? then (FilesPruned(root, EventsPruned, r.value); r) else r
  }

  /** `events.js` present only below `node_modules` or `constants`: not found. */
  lemma EventsOnlyUnderPrunedNotFound(root: seq<Entry>)
    requires forall p :: p in Files(root, {}) && Last(p) == EventsName ==> !AvoidsDirs(p, EventsPruned)
    ensures FindEvents(root).None?
  {
    forall p | p in Files(root, EventsPruned)
      ensures Last(p) != EventsName
    {
      FilesPruned(root, EventsPruned, p);
    }
  }
}
