/** Restoring an environment bundle as a transaction over files: decode everything,
    record what is there, write, and put everything back if a write fails. */
module EnvRestore {
  import opened Options

  /** A directory entry. `mode` keeps the permission bits in its low nine bits and the
      set-user-ID, set-group-ID and sticky bits above them. */
  datatype Entry = Regular(content: string, mode: nat) | Symlink | Special

  type Files = map<string, Entry>

  function Perm(mode: nat): nat {
    mode % 512
  }

  /** 0600. */
  const RESTORED_MODE: nat := 384

  datatype Backup = Missing | Saved(content: string, mode: nat)

  datatype Outcome =
    | Restored(count: nat)
    | DecodeFailed
    | PrepareFailed
    | WriteFailed
    | RollbackFailed(paths: set<string>)

  /** What the operating system and the codec answer, path by path. */
  datatype Host = Host(
    decode: string -> Option<string>,
    allowed: string -> bool,        // the bundle may restore this path
    directory: string -> bool,      // its directory is real, or could be made
    readable: string -> bool,
    writes: string -> bool,         // the restoring write is published
    undoes: string -> bool,         // the write or removal during rollback succeeds
    directoriesRemoved: bool)       // the directories made on the way are removed again

  function Encoded(bundle: map<string, string>, path: string): string {
    if path in bundle then bundle[path] else ""
  }

  predicate Decodes(bundle: map<string, string>, path: string, h: Host) {
    h.decode(Encoded(bundle, path)).Some?
  }

  function Decoded(bundle: map<string, string>, path: string, h: Host): string {
    var content := h.decode(Encoded(bundle, path));
    if content.Some? then content.value else ""
  }

  /** `path` lies below `dir`; allowed paths are clean and relative. */
  predicate Below(path: string, dir: string) {
    dir + "/" <= path
  }

  /** A parent of the path is a file or a symlink, so no directory can stand there. */
  predicate ParentTaken(files: Files, path: string) {
    exists dir :: dir in files && !files[dir].Special? && Below(path, dir)
  }

  /** Preparing the other paths makes a directory of this one. */
  predicate BecomesDirectory(paths: seq<string>, path: string) {
    exists other :: other in paths && Below(other, path)
  }

  /** A target in an allowed place under real directories that is a readable regular file, or
      is absent and is not made a directory for another target. */
  predicate Preparable(files: Files, paths: seq<string>, path: string, h: Host) {
    && h.allowed(path) && h.directory(path) && !ParentTaken(files, path)
    && (if path in files then files[path].Regular? && h.readable(path) else !BecomesDirectory(paths, path))
  }

  /** What a restore refuses to touch: a path outside the bundle's places, one below a file or
      a symlink, one that is not a readable regular file, and one that is absent but has
      another listed path below it. */
  lemma PreparableExactly(files: Files, paths: seq<string>, path: string, h: Host)
    ensures Preparable(files, paths, path, h) <==>
      && h.allowed(path) && h.directory(path)
      && (forall dir :: dir in files && dir + "/" <= path ==> files[dir] == Special)
      && match At(files, path)
         case Some(Regular(_, _)) => h.readable(path)
         case Some(_) => false
         case None => forall other :: other in paths ==> !(path + "/" <= other)
  {
  }

  /** The files with every listed path replaced by its decoded content. */
  function Overlay(files: Files, paths: seq<string>, bundle: map<string, string>, h: Host): Files {
    files + map p | p in paths :: Regular(Decoded(bundle, p, h), RESTORED_MODE)
  }

  /** What a rollback puts back: content and permissions, without special mode bits. */
  function PutBack(files: Files, paths: set<string>): Files {
    map p | p in files ::
      if p in paths && files[p].Regular? then files[p].(mode := Perm(files[p].mode)) else files[p]
  }

  function At(files: Files, p: string): Option<Entry> {
    if p in files then Some(files[p]) else None
  }

  /** Every listed path holds its decoded entry of the bundle, for its owner alone to read and
      write, and every other path what it held before. */
  ghost predicate HoldsBundle(after: Files, before: Files, paths: seq<string>, bundle: map<string, string>, h: Host) {
    && (forall p :: p in paths ==>
          && p in after && after[p].Regular? && after[p].mode == 0x180
          && h.decode(if p in bundle then bundle[p] else "") == Some(after[p].content))
    && (forall p :: p !in paths ==> At(after, p) == At(before, p))
  }

  lemma OverlayHoldsBundle(files: Files, paths: seq<string>, bundle: map<string, string>, h: Host)
    requires forall p :: p in paths ==> Decodes(bundle, p, h)
    ensures HoldsBundle(Overlay(files, paths, bundle, h), files, paths, bundle, h)
  {
  }

  /** Every path is as before, except that a listed file has only its nine permission bits. */
  ghost predicate HoldsBefore(after: Files, before: Files, paths: seq<string>) {
    forall p :: At(after, p) == if p in paths && p in before && before[p].Regular?
                                then Some(Regular(before[p].content, before[p].mode % 0x200)) else At(before, p)
  }

  lemma PutBackHoldsBefore(files: Files, paths: seq<string>)
    ensures HoldsBefore(PutBack(files, set p | p in paths), files, paths)
  {
  }

  lemma OverlayAt(files: Files, paths: seq<string>, bundle: map<string, string>, h: Host, p: string)
    ensures At(Overlay(files, paths, bundle, h), p)
         == if p in paths then Some(Regular(Decoded(bundle, p, h), RESTORED_MODE)) else At(files, p)
  {
  }

  /** Files are what is at every path. */
  lemma SameEverywhere(a: Files, b: Files)
    requires forall p :: At(a, p) == At(b, p)
    ensures a == b
  {
    forall p ensures p in a <==> p in b { assert At(a, p) == At(b, p); }
    forall p | p in a ensures a[p] == b[p] { assert At(a, p) == At(b, p); }
  }

  lemma OverlayStep(files: Files, paths: seq<string>, i: nat, bundle: map<string, string>, h: Host)
    requires i < |paths|
    ensures Overlay(files, paths[..i + 1], bundle, h)
         == Overlay(files, paths[..i], bundle, h)[paths[i] := Regular(Decoded(bundle, paths[i], h), RESTORED_MODE)]
  {
    assert paths[..i + 1] == paths[..i] + [paths[i]];
    var before, after := Overlay(files, paths[..i], bundle, h), Overlay(files, paths[..i + 1], bundle, h);
    var next := before[paths[i] := Regular(Decoded(bundle, paths[i], h), RESTORED_MODE)];
    forall p ensures At(after, p) == At(next, p) {
      OverlayAt(files, paths[..i], bundle, h, p);
      OverlayAt(files, paths[..i + 1], bundle, h, p);
    }
    SameEverywhere(after, next);
  }

  class Disk {
    var files: Files

    constructor (files: Files)
      ensures this.files == files
    {
      this.files := files;
    }

    /** Publish by rename: the path has its new content or, on error, is untouched. */
    method WriteAtomic(path: string, content: string, mode: nat, published: bool) returns (ok: bool)
      modifies this
      ensures ok == published
      ensures files == if ok then old(files)[path := Regular(content, mode)] else old(files)
    {
      if published { files := files[path := Regular(content, mode)]; }
      ok := published;
    }

    /** The directories come first; the first path that cannot have its own ends it. */
    method PrepareDirectories(paths: seq<string>, h: Host) returns (ok: bool)
      ensures ok <==> forall p :: p in paths ==> h.allowed(p) && h.directory(p) && !ParentTaken(files, p)
    {
      var i := 0;
      while i < |paths|
        invariant 0 <= i <= |paths|
        invariant forall j :: 0 <= j < i ==> h.allowed(paths[j]) && h.directory(paths[j]) && !ParentTaken(files, paths[j])
      {
        if !h.allowed(paths[i]) || !h.directory(paths[i]) || ParentTaken(files, paths[i]) {
          assert paths[i] in paths;
          return false;
        }
        i := i + 1;
      }
      ok := true;
    }

    method PrepareTransaction(paths: seq<string>, h: Host) returns (ok: bool, backups: map<string, Backup>)
      ensures ok <==> forall p :: p in paths ==> Preparable(files, paths, p, h)
      ensures ok ==> backups.Keys == (set p | p in paths)
      ensures ok ==> forall p :: p in paths ==> Records(files, p, backups[p])
    {
      backups := map[];
      ok := PrepareDirectories(paths, h);
      if !ok { return; }
      var i := 0;
      while i < |paths|
        invariant 0 <= i <= |paths|
        invariant backups.Keys == set p | p in paths[..i]
        invariant forall p :: p in paths[..i] ==> Preparable(files, paths, p, h) && Records(files, p, backups[p])
      {
        var p := paths[i];
        assert paths[..i + 1] == paths[..i] + [p] && p in paths;
        if p in files && (!files[p].Regular? || !h.readable(p)) {
          assert !Preparable(files, paths, p, h);
          return false, backups;
        }
        if p !in files && BecomesDirectory(paths, p) {
          assert !Preparable(files, paths, p, h);
          return false, backups;
        }
        backups := backups[p := if p in files then Saved(files[p].content, Perm(files[p].mode)) else Missing];
        i := i + 1;
      }
      assert paths[..i] == paths;
      ok := true;
    }

    /** Put every recorded path back, in any order, and collect the paths that resisted. */
    method Rollback(backups: map<string, Backup>, h: Host) returns (failed: set<string>)
      modifies this
      ensures failed <= backups.Keys
      ensures forall p :: p !in backups || p in failed ==> At(files, p) == At(old(files), p)
      ensures forall p :: p in backups && p !in failed ==> At(files, p) == Undo(backups[p])
      ensures (forall p :: p in backups ==> h.undoes(p)) ==> failed == {}
    {
      failed := {};
      var pending := backups.Keys;
      while pending != {}
        invariant pending <= backups.Keys && failed <= backups.Keys - pending
        invariant forall p :: p !in backups || p in failed || p in pending ==> At(files, p) == At(old(files), p)
        invariant forall p :: p in backups && p !in failed && p !in pending ==> At(files, p) == Undo(backups[p])
        invariant (forall p :: p in backups ==> h.undoes(p)) ==> failed == {}
        decreases pending
      {
        var path :| path in pending;
        pending := pending - {path};
        match backups[path]
        case Saved(content, mode) =>
          var ok := WriteAtomic(path, content, mode, h.undoes(path));
          if !ok { failed := failed + {path}; }
        case Missing =>
          if path in files {
            if h.undoes(path) { files := files - {path}; } else { failed := failed + {path}; }
          }
      }
    }

    method DecodeAll(bundle: map<string, string>, paths: seq<string>, h: Host) returns (ok: bool)
      ensures ok <==> forall p :: p in paths ==> Decodes(bundle, p, h)
    {
      ok := true;
      var i := 0;
      while i < |paths|
        invariant 0 <= i <= |paths|
        invariant ok <==> forall j :: 0 <= j < i ==> Decodes(bundle, paths[j], h)
      {
        if !Decodes(bundle, paths[i], h) { ok := false; }
        i := i + 1;
      }
    }

    /** Write the paths in order; the first failure ends the loop. */
    method WriteAll(bundle: map<string, string>, paths: seq<string>, h: Host) returns (done: nat)
      modifies this
      ensures done <= |paths| && (done < |paths| ==> !h.writes(paths[done]))
      ensures forall j :: 0 <= j < done ==> h.writes(paths[j])
      ensures files == Overlay(old(files), paths[..done], bundle, h)
    {
      done := 0;
      while done < |paths|
        invariant done <= |paths|
        invariant forall j :: 0 <= j < done ==> h.writes(paths[j])
        invariant files == Overlay(old(files), paths[..done], bundle, h)
      {
        OverlayStep(old(files), paths, done, bundle, h);
        var ok := WriteAtomic(paths[done], Decoded(bundle, paths[done], h), RESTORED_MODE, h.writes(paths[done]));
        if !ok { return; }
        done := done + 1;
      }
    }

    /** All or nothing on files. Success leaves exactly the decoded contents and touches no
        other path; a bundle that does not decode or cannot be prepared changes nothing; a
        failed write whose rollback succeeds gives back every content, permission and
        absence; and a failed rollback names every path it could not give back. */
    method RestoreBundle(bundle: map<string, string>, paths: seq<string>, h: Host) returns (r: Outcome)
      modifies this
      ensures r.DecodeFailed? <==> exists p :: p in paths && !Decodes(bundle, p, h)
      ensures r.PrepareFailed? <==>
                && (forall p :: p in paths ==> Decodes(bundle, p, h))
                && (exists p :: p in paths && !Preparable(old(files), paths, p, h))
      ensures r.DecodeFailed? || r.PrepareFailed? ==> files == old(files)
      ensures r.Restored? ==> r.count == |paths| && HoldsBundle(files, old(files), paths, bundle, h)
      ensures !r.DecodeFailed? && !r.PrepareFailed? ==> (r.Restored? <==> forall p :: p in paths ==> h.writes(p))
      ensures r.WriteFailed? ==> HoldsBefore(files, old(files), paths)
      ensures r.WriteFailed? ==>
                (files == old(files) <==> forall p :: p in paths && p in old(files) ==> PlainMode(old(files)[p]))
      ensures r.RollbackFailed? ==>
                && r.paths <= (set p | p in paths)
                && (forall p :: p !in r.paths ==> At(files, p) == At(PutBack(old(files), set q | q in paths), p))
                && (forall p :: p in r.paths ==>
                      At(files, p) == At(old(files), p) || At(files, p) == At(Overlay(old(files), paths, bundle, h), p))
      ensures (forall p :: p in paths ==> h.undoes(p)) && h.directoriesRemoved ==> !r.RollbackFailed?
    {
      var decoded := DecodeAll(bundle, paths, h);
      if !decoded { return DecodeFailed; }
      var prepared, backups := PrepareTransaction(paths, h);
      if !prepared { return PrepareFailed; }
      var done := WriteAll(bundle, paths, h);
      if done == |paths| {
        assert paths[..done] == paths;
        OverlayHoldsBundle(old(files), paths, bundle, h);
        return Restored(|paths|);
      }
      assert paths[done] in paths;
      ghost var written := files;
      var failed := Rollback(backups, h);
      RolledBack(old(files), written, files, paths, done, bundle, h, backups, failed);
      if failed != {} || !h.directoriesRemoved { return RollbackFailed(failed); }
      RollbackIsExactIff(old(files), set p | p in paths);
      PutBackHoldsBefore(old(files), paths);
      r := WriteFailed;
    }
  }

  /** What a recorded path looks like once it is put back. */
  function Undo(b: Backup): Option<Entry> {
    match b
    case Missing => None
    case Saved(content, mode) => Some(Regular(content, mode))
  }

  ghost predicate Records(files: Files, p: string, b: Backup) {
    Undo(b) == At(PutBack(files, {p}), p) && (p in files ==> files[p].Regular?)
  }

  lemma RolledBack(before: Files, written: Files, after: Files, paths: seq<string>, i: nat, bundle: map<string, string>, h: Host,
                   backups: map<string, Backup>, failed: set<string>)
    requires i <= |paths|
    requires written == Overlay(before, paths[..i], bundle, h)
    requires backups.Keys == (set p | p in paths) && forall p :: p in paths ==> Records(before, p, backups[p])
    requires failed <= backups.Keys
    requires forall p :: p !in backups || p in failed ==> At(after, p) == At(written, p)
    requires forall p :: p in backups && p !in failed ==> At(after, p) == Undo(backups[p])
    ensures forall p :: p !in failed ==> At(after, p) == At(PutBack(before, set q | q in paths), p)
    ensures failed == {} ==> after == PutBack(before, set q | q in paths)
    ensures forall p :: p in failed ==> At(after, p) == At(before, p) || At(after, p) == At(Overlay(before, paths, bundle, h), p)
  {
    var back := PutBack(before, set q | q in paths);
    forall p | p !in failed ensures At(after, p) == At(back, p) {
      OverlayAt(before, paths[..i], bundle, h, p);
      if p in paths {
        assert p in backups && Records(before, p, backups[p]);
      } else {
        assert p !in paths[..i];
      }
    }
    if failed == {} { SameEverywhere(after, back); }
    forall p | p in failed ensures At(after, p) == At(before, p) || At(after, p) == At(Overlay(before, paths, bundle, h), p) {
      assert p in backups;
      OverlayAt(before, paths[..i], bundle, h, p);
      OverlayAt(before, paths, bundle, h, p);
    }
  }

  /** An entry without set-user-ID, set-group-ID or sticky bit. */
  predicate PlainMode(e: Entry) {
    e.Regular? ==> e.mode < 512
  }

  /** Putting back is the identity exactly when no file put back carries a special bit. */
  lemma RollbackIsExactIff(files: Files, paths: set<string>)
    ensures PutBack(files, paths) == files <==> forall p :: p in paths && p in files ==> PlainMode(files[p])
  {
    var back := PutBack(files, paths);
    if back == files {
      forall p | p in paths && p in files ensures PlainMode(files[p]) { assert back[p] == files[p]; }
    }
    assert back.Keys == files.Keys;
  }

  /** A restore whose only write fails: the set-user-ID file 04755 comes back as 0755. */
  method SpecialBitIsLost() returns (r: Outcome, after: Files)
    ensures r == WriteFailed && after == map["f" := Regular("x", 493)]
  {
    var host := Host(s => Some(s), p => true, p => true, p => true, p => false, p => true, true);
    var before := map["f" := Regular("x", 2541)];
    var disk := new Disk(before);
    assert Preparable(before, ["f"], "f", host) by { assert !Below("f", "f"); }
    r := disk.RestoreBundle(map["f" := "y"], ["f"], host);
    assert "f" in ["f"] && Decodes(map["f" := "y"], "f", host) && !host.writes("f");
    after := disk.files;
    assert 2541 % 0x200 == 493;
    SameEverywhere(after, map["f" := Regular("x", 493)]);
  }
}
