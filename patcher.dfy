/** `Patcher.patchRum` (src/main/modules/patcher/patch.ts): back up `app.asar`,
    extract it, patch three files found by search, repack, rewrite the macOS
    plist hash and delete the scratch directory. */
module Patcher {
  import opened Wrappers
  import opened PatcherSearch
  import opened PatcherText

  /** `app.asar`: an archive that extracts to a tree, or one `extractAll` rejects. */
  datatype Archive = Packed(tree: seq<Entry>) | Corrupt

  /** How the promise of `patchRum` settles: `true`, `false`, or `undefined`
      after an error was caught and logged. */
  datatype PatchResult = Patched | EventsMissing | Failed

  /** Outcomes of the operations the model does not perform itself. */
  datatype Effects = Effects(
    copyError: bool,      // `exec` of cp/copy reported an error
    copyStderr: string,   // what the copy command wrote to stderr
    packOk: bool,         // `asar.createPackage` resolved
    onMac: bool,          // `isMac()`
    plistWritable: bool,  // `fs.writeFile` of Info.plist succeeded
    deleteOk: bool)       // rm -rf / rmdir succeeded

  // ---------------------------------------------------------------------------
  // The patched tree, step by step

  /** Read the file at `p`, transform its text, write it back; nothing to do
      when the search found nothing. */
  function Rewrite(tree: seq<Entry>, p: Option<Path>, f: string -> string): seq<Entry> {
    match p
    case None => tree
    case Some(q) =>
      match FileContent(tree, q)
      case None => tree
      case Some(c) => WriteFile(tree, q, f(c))
  }

  function AfterRumScript(t: seq<Entry>): seq<Entry> {
    Rewrite(t, FindRumScript(t), InjectRumScript)
  }

  function AfterConfig(t: seq<Entry>): seq<Entry> {
    Rewrite(t, FindConfig(t), PatchConfig)
  }

  function AfterEvents(t: seq<Entry>): seq<Entry> {
    Rewrite(t, FindEvents(t), PatchEvents)
  }

  /** The scratch tree once all three files are patched. */
  function PatchedTree(t: seq<Entry>): seq<Entry> {
    AfterEvents(AfterConfig(AfterRumScript(t)))
  }

  lemma RewriteShape(tree: seq<Entry>, p: Option<Path>, f: string -> string)
    ensures SameShape(tree, Rewrite(tree, p, f))
  {
    if p.Some? && FileContent(tree, p.value).Some? {
      WriteFileSameShape(tree, p.value, f(FileContent(tree, p.value).value));
    } else {
      SameShapeRefl(tree);
    }
  }

  lemma SameShapeTrans(a: seq<Entry>, b: seq<Entry>, c: seq<Entry>)
    requires SameShape(a, b) && SameShape(b, c)
    ensures SameShape(a, c)
    decreases a
  {
    forall i | 0 <= i < |a| && a[i].Dir?
      ensures SameShape(a[i].children, c[i].children)
    {
      SameShapeTrans(a[i].children, b[i].children, c[i].children);
    }
  }

  /** One rewrite: the found file gets `f` of its content, and no other file changes. */
  lemma RewriteContents(tree: seq<Entry>, p: Option<Path>, f: string -> string, q: Path)
    requires p.Some? ==> FileContent(tree, p.value).Some?
    ensures p.Some? && q == p.value ==>
      FileContent(Rewrite(tree, p, f), q) == Some(f(FileContent(tree, q).value))
    ensures p.None? || q != p.value ==>
      FileContent(Rewrite(tree, p, f), q) == FileContent(tree, q)
  {
    if p.Some? {
      var c := f(FileContent(tree, p.value).value);
      if q == p.value {
        WriteFileReadBack(tree, p.value, c);
      } else {
        WriteFileOthers(tree, p.value, c, q);
      }
    }
  }

  /** The files the three searches find in the extracted tree `t`. */
  function RumPath(t: seq<Entry>): (r: Option<Path>)
    requires UniqueNames(t)
    ensures r.Some? ==> FileContent(t, r.value).Some? && Last(r.value) == RumScriptName
  {
    FoundIsFile(t, RumScriptName, {});
    FindRumScript(t)
  }

  function ConfigPath(t: seq<Entry>): (r: Option<Path>)
    requires UniqueNames(t)
    ensures r.Some? ==> FileContent(t, r.value).Some? && Last(r.value) == ConfigName
  {
    FoundIsFile(t, ConfigName, {});
    FindConfig(t)
  }

  function EventsPath(t: seq<Entry>): (r: Option<Path>)
    requires UniqueNames(t)
    ensures r.Some? ==> FileContent(t, r.value).Some? && Last(r.value) == EventsName
  {
    FoundIsFile(t, EventsName, EventsPruned);
    FindEvents(t)
  }

  predicate IsFound(p: Option<Path>, q: Path) {
    p.Some? && p.value == q
  }

  /** The three stages keep the tree's shape, so each search finds in the
      partly patched tree what it finds in the extracted one, and each hit is
      a file. */
  lemma StagesShape(t: seq<Entry>)
    requires UniqueNames(t)
    ensures UniqueNames(AfterRumScript(t)) && UniqueNames(AfterConfig(AfterRumScript(t)))
    ensures SameShape(t, AfterRumScript(t)) && SameShape(t, AfterConfig(AfterRumScript(t)))
    ensures SameShape(t, PatchedTree(t)) && UniqueNames(PatchedTree(t))
    ensures FindConfig(AfterRumScript(t)) == FindConfig(t)
    ensures FindEvents(AfterConfig(AfterRumScript(t))) == FindEvents(t)
  {
    var t1 := AfterRumScript(t);
    var t2 := AfterConfig(t1);
    var t3 := AfterEvents(t2);
    RewriteShape(t, FindRumScript(t), InjectRumScript);
    SameShapeUniqueNames(t, t1);
    FindInSameShape(t, t1, ConfigName, {});
    FindInSameShape(t, t1, EventsName, EventsPruned);
    RewriteShape(t1, FindConfig(t1), PatchConfig);
    SameShapeUniqueNames(t1, t2);
    SameShapeTrans(t, t1, t2);
    FindInSameShape(t, t2, EventsName, EventsPruned);
    RewriteShape(t2, FindEvents(t2), PatchEvents);
    SameShapeTrans(t, t2, t3);
    SameShapeUniqueNames(t, t3);
  }

  /** Three rewrites in a row at three different paths: each file gets its own
      transform, every other file keeps its content. */
  lemma ThreeRewrites(t0: seq<Entry>, p1: Option<Path>, f1: string -> string,
                      p2: Option<Path>, f2: string -> string,
                      p3: Option<Path>, f3: string -> string, q: Path)
    requires p1.Some? ==> FileContent(t0, p1.value).Some?
    requires p2.Some? ==> FileContent(t0, p2.value).Some?
    requires p3.Some? ==> FileContent(t0, p3.value).Some?
    requires p1.Some? && p2.Some? ==> p1.value != p2.value
    requires p1.Some? && p3.Some? ==> p1.value != p3.value
    requires p2.Some? && p3.Some? ==> p2.value != p3.value
    ensures var t3 := Rewrite(Rewrite(Rewrite(t0, p1, f1), p2, f2), p3, f3);
      && (IsFound(p1, q) ==> FileContent(t3, q) == Some(f1(FileContent(t0, q).value)))
      && (IsFound(p2, q) ==> FileContent(t3, q) == Some(f2(FileContent(t0, q).value)))
      && (IsFound(p3, q) ==> FileContent(t3, q) == Some(f3(FileContent(t0, q).value)))
      && (!IsFound(p1, q) && !IsFound(p2, q) && !IsFound(p3, q) ==>
            FileContent(t3, q) == FileContent(t0, q))
  {
    var t1 := Rewrite(t0, p1, f1);
    var t2 := Rewrite(t1, p2, f2);
    RewriteContents(t0, p1, f1, q);
    if p2.Some? {
      RewriteContents(t0, p1, f1, p2.value);
    }
    RewriteContents(t1, p2, f2, q);
    if p3.Some? {
      RewriteContents(t0, p1, f1, p3.value);
      RewriteContents(t1, p2, f2, p3.value);
    }
    RewriteContents(t2, p3, f3, q);
  }

  /** In a well-formed tree, patching keeps the tree's shape; the entry script
      gets the block appended, the config file gets both flag flips, the
      events file gets the listener hook, and every other file keeps its
      content. */
  lemma PatchedTreeSpec(t: seq<Entry>, q: Path)
    requires UniqueNames(t)
    ensures SameShape(t, PatchedTree(t))
    ensures IsFound(RumPath(t), q) ==>
      FileContent(PatchedTree(t), q) == Some(InjectRumScript(FileContent(t, q).value))
    ensures IsFound(ConfigPath(t), q) ==>
      FileContent(PatchedTree(t), q) == Some(PatchConfig(FileContent(t, q).value))
    ensures IsFound(EventsPath(t), q) ==>
      FileContent(PatchedTree(t), q) == Some(PatchEvents(FileContent(t, q).value))
    ensures !IsFound(RumPath(t), q) && !IsFound(ConfigPath(t), q) && !IsFound(EventsPath(t), q) ==>
      FileContent(PatchedTree(t), q) == FileContent(t, q)
  {
    StagesShape(t);
    // The three found paths end in different names, so they are different.
    ThreeRewrites(t, RumPath(t), InjectRumScript, ConfigPath(t), PatchConfig,
                  EventsPath(t), PatchEvents, q);
    assert PatchedTree(t) == Rewrite(Rewrite(Rewrite(t, RumPath(t), InjectRumScript),
      ConfigPath(t), PatchConfig), EventsPath(t), PatchEvents);
  }

  // ---------------------------------------------------------------------------
  // The installation's files and the patch run

  /** The files `patchRum` touches, and the `music.hash` setting. */
  class Installation {
    var archive: Archive            // <app>/app.asar
    var backup: Option<Archive>     // <app>/app.asar.copy
    var scratch: Option<seq<Entry>> // <app>/app, the extraction directory
    var plist: Option<string>       // <app>/../Info.plist (None: unreadable)
    var savedHash: Option<string>   // the `music.hash` setting

    /** The trees are well-formed directory listings. */
    ghost predicate Valid()
      reads this
    {
      && (archive.Packed? ==> UniqueNames(archive.tree))
      && (scratch.Some? ==> UniqueNames(scratch.value))
    }

    constructor (archive: Archive, plist: Option<string>, savedHash: Option<string>)
      ensures this.archive == archive && this.plist == plist && this.savedHash == savedHash
      ensures backup.None? && scratch.None?
    {
      this.archive := archive;
      this.backup := None;
      this.scratch := None;
      this.plist := plist;
      this.savedHash := savedHash;
    }

    /** `copyFile(app.asar)`: succeeds, creating `app.asar.copy`, unless the
        command reports an error or writes to stderr. */
    method CopyFile(error: bool, stderr: string) returns (ok: bool)
      modifies this`backup
      ensures ok <==> !error && |stderr| == 0
      ensures backup == if ok then Some(archive) else old(backup)
    {
      if error {
        ok := false;
      } else if |stderr| > 0 {
        ok := false;
      } else {
        backup := Some(archive);
        ok := true;
      }
    }

    /** The delayed macOS step: hash the new archive, and when the plist can be
        read and holds a hash record, write the new hash into it and store the
        old one; otherwise log and leave everything alone. */
    method ReconcileHash(fx: Effects, hash: string)
      modifies this`plist, this`savedHash
      ensures (plist, savedHash) == HashStep(old(plist), old(savedHash), fx, hash)
    {
      if fx.onMac && plist.Some? {
        var u := RewritePlist(PlistHash, plist.value, hash);
        if u.oldHash.Some? && fx.plistWritable {
          plist := Some(u.text);
          savedHash := u.oldHash;
        }
      }
    }

    /** Extract `t` into the scratch directory and patch the three files in
        place, one write at a time; `found` is false when `events.js` is
        missing, in which case the run stops after `config.js`. */
    method PatchFiles(t: seq<Entry>) returns (tree: seq<Entry>, found: bool)
      requires UniqueNames(t)
      modifies this`scratch
      ensures found <==> FindEvents(t).Some?
      ensures tree == if found then PatchedTree(t) else AfterConfig(AfterRumScript(t))
      ensures scratch == Some(tree)
      ensures UniqueNames(tree)
    {
      StagesShape(t);
      tree := t;
      scratch := Some(tree);

      // rumScript.js
      var rum := RumPath(t);
      if rum.Some? {
        var content := FileContent(tree, rum.value).value;
        content := InjectRumScript(content);
        tree := WriteFile(tree, rum.value, content);
        scratch := Some(tree);
      }
      assert tree == AfterRumScript(t);
      var t1 := tree;

      // config.js: two read-replace-write cycles
      var cfg := ConfigPath(t1);
      if cfg.Some? {
        var content := FileContent(tree, cfg.value).value;
        var devTools := EnableDevTools(content);
        tree := WriteFile(tree, cfg.value, devTools);
        scratch := Some(tree);
        WriteFileReadBack(t1, cfg.value, devTools);
        var contentWeb := FileContent(tree, cfg.value).value;
        var webSecurity := DisableWebSecurity(contentWeb);
        tree := WriteFile(tree, cfg.value, webSecurity);
        scratch := Some(tree);
        WriteFileTwice(t1, cfg.value, devTools, webSecurity);
      }
      assert tree == AfterConfig(t1);
      var t2 := tree;

      // events.js
      var ev := EventsPath(t2);
      if ev.None? {
        return tree, false;
      }
      var eventsContent := FileContent(tree, ev.value).value;
      tree := WriteFile(tree, ev.value, PatchEvents(eventsContent));
      scratch := Some(tree);
      assert tree == AfterEvents(t2);
      found := true;
    }

    /** `patchRum`. `digest` stands for `calculateSHA256FromAsar`. */
    method PatchRum(fx: Effects, digest: seq<Entry> -> string) returns (r: PatchResult)
      requires Valid()
      modifies this
      ensures Valid()
      // A failed backup aborts before anything else happens.
      ensures fx.copyError || |fx.copyStderr| > 0 ==>
        && r == Failed && archive == old(archive) && backup == old(backup)
        && scratch == old(scratch) && plist == old(plist) && savedHash == old(savedHash)
      // Otherwise the backup exists before extraction is attempted.
      ensures !fx.copyError && |fx.copyStderr| == 0 ==> backup == Some(old(archive))
      ensures !fx.copyError && |fx.copyStderr| == 0 && old(archive).Corrupt? ==>
        && r == Failed && archive == old(archive)
        && scratch == old(scratch) && plist == old(plist) && savedHash == old(savedHash)
      ensures !fx.copyError && |fx.copyStderr| == 0 && old(archive).Packed? ==>
        var t := old(archive).tree;
        // events.js missing: false, no repack, no delete.
        && (FindEvents(t).None? ==>
              && r == EventsMissing && archive == old(archive)
              && scratch == Some(AfterConfig(AfterRumScript(t)))
              && plist == old(plist) && savedHash == old(savedHash))
        // Packing threw: the error is caught, the scratch directory stays.
        && (FindEvents(t).Some? && !fx.packOk ==>
              && r == Failed && archive == old(archive)
              && scratch == Some(PatchedTree(t))
              && plist == old(plist) && savedHash == old(savedHash))
        // Packed: true, whatever the deletion does.
        && (FindEvents(t).Some? && fx.packOk ==>
              && r == Patched && archive == Packed(PatchedTree(t))
              && scratch == (if fx.deleteOk then None else Some(PatchedTree(t)))
              && (plist, savedHash) == HashStep(old(plist), old(savedHash), fx, digest(PatchedTree(t))))
    {
      var copied := CopyFile(fx.copyError, fx.copyStderr);
      if !copied {
        return Failed;
      }
      if archive.Corrupt? {
        return Failed;
      }
      r := PatchExtracted(fx, digest, archive.tree);
    }

    /** The part of `patchRum` after the backup, for an archive that extracts:
        patch, repack, reconcile the hash and delete the scratch directory. */
    method PatchExtracted(fx: Effects, digest: seq<Entry> -> string, t: seq<Entry>) returns (r: PatchResult)
      requires Valid() && archive == Packed(t)
      modifies this`archive, this`scratch, this`plist, this`savedHash
      ensures Valid()
      ensures
        && (FindEvents(t).None? ==>
              && r == EventsMissing && archive == old(archive)
              && scratch == Some(AfterConfig(AfterRumScript(t)))
              && plist == old(plist) && savedHash == old(savedHash))
        && (FindEvents(t).Some? && !fx.packOk ==>
              && r == Failed && archive == old(archive)
              && scratch == Some(PatchedTree(t))
              && plist == old(plist) && savedHash == old(savedHash))
        && (FindEvents(t).Some? && fx.packOk ==>
              && r == Patched && archive == Packed(PatchedTree(t))
              && scratch == (if fx.deleteOk then None else Some(PatchedTree(t)))
              && (plist, savedHash) == HashStep(old(plist), old(savedHash), fx, digest(PatchedTree(t))))
    {
      var tree, found := PatchFiles(t);
      r := Repack(fx, digest, tree, found);
    }

    /** After the files are patched into `tree`: stop when `events.js` was
        missing, otherwise repack, reconcile the hash and delete the scratch
        directory. */
    method Repack(fx: Effects, digest: seq<Entry> -> string, tree: seq<Entry>, found: bool)
      returns (r: PatchResult)
      requires Valid() && UniqueNames(tree)
      modifies this`archive, this`scratch, this`plist, this`savedHash
      ensures Valid()
      ensures !found ==>
        && r == EventsMissing && archive == old(archive) && scratch == old(scratch)
        && plist == old(plist) && savedHash == old(savedHash)
      ensures found && !fx.packOk ==>
        && r == Failed && archive == old(archive) && scratch == old(scratch)
        && plist == old(plist) && savedHash == old(savedHash)
      ensures found && fx.packOk ==>
        && r == Patched && archive == Packed(tree)
        && scratch == (if fx.deleteOk then None else old(scratch))
        && (plist, savedHash) == HashStep(old(plist), old(savedHash), fx, digest(tree))
    {
      if !found {
        return EventsMissing;
      }
      if !fx.packOk {
        return Failed;
      }
      archive := Packed(tree);
      ReconcileHash(fx, digest(tree));
      if fx.deleteOk {
        scratch := None;
      }
      return Patched;
    }
  }

  /** The plist and `music.hash` after the macOS step: only with a readable,
      writable plist holding a hash record do they change, the first record
      then carrying the new hash and the setting the old one. */
  function HashStep(plist: Option<string>, saved: Option<string>, fx: Effects, hash: string)
    : (r: (Option<string>, Option<string>))
    ensures !fx.onMac || plist.None? ==> r == (plist, saved)
    ensures plist.Some? && FindHash(PlistHash, plist.value, 0).None? ==> r == (plist, saved)
    ensures r != (plist, saved) ==>
      && fx.onMac && fx.plistWritable && plist.Some? && FindHash(PlistHash, plist.value, 0).Some?
      && r.0 == Some(RewritePlist(PlistHash, plist.value, hash).text)
      && r.1 == Some(FindHash(PlistHash, plist.value, 0).value.value)
  {
    if fx.onMac && plist.Some? then
      var u := RewritePlist(PlistHash, plist.value, hash);
      if u.oldHash.Some? && fx.plistWritable then (Some(u.text), u.oldHash) else (plist, saved)
    else (plist, saved)
  }

  /** When the step does rewrite the plist (a hash that is non-empty and has
      no `<`, as a hex digest is), the old hash goes to the setting and the
      plist's first hash record, where the old one stood, carries the new one. */
  lemma HashStepStoresNewHash(plist: string, saved: Option<string>, fx: Effects, hash: string, m: HashMatch)
    requires fx.onMac && fx.plistWritable
    requires FindHash(PlistHash, plist, 0) == Some(m)
    requires |hash| > 0 && '<' !in hash
    ensures var r := HashStep(Some(plist), saved, fx, hash);
      && r.1 == Some(m.value) && r.0.Some?
      && MatchAt(PlistHash, r.0.value, m.start)
         == Some(HashMatch(m.start, m.start + |HashRecord(PlistHash, hash)|, hash))
  {
    PlistHashDelimited();
    RewrittenRecordMatches(PlistHash, plist, hash, m);
  }
}
