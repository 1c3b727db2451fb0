/**
 * Moving the dataset and its companion files to their new names without
 * overwriting anything, over a filesystem modelled as a map from paths to
 * file contents.
 *
 * VSIRename is taken as the Windows rename the tool is written for: it
 * succeeds (0) exactly when the source exists and the target does not, and
 * otherwise fails (-1) and changes nothing.
 */
module Renamer {
  import opened Wrappers
  import opened Companions
  import opened NameTemplate

  type Path = string
  type Bytes = seq<bv8>
  type Files = map<Path, Bytes>

  /** When VSIRename succeeds. */
  predicate CanRename(m: Files, src: Path, dst: Path) {
    src in m && dst !in m
  }

  /** The filesystem after a successful rename: the content leaves src and appears at dst. */
  function Moved(m: Files, src: Path, dst: Path): (r: Files)
    requires CanRename(m, src, dst)
    ensures src !in r && dst in r && r[dst] == m[src]
    ensures forall p :: p != src && p != dst ==> (p in r <==> p in m)
    ensures forall p :: p in m && p != src ==> p in r && r[p] == m[p]
  {
    (m - {src})[dst := m[src]]
  }

  /** A rename neither creates nor destroys files. */
  lemma MovedKeepsCount(m: Files, src: Path, dst: Path)
    requires CanRename(m, src, dst)
    ensures |Moved(m, src, dst)| == |m|
  {
    var r := Moved(m, src, dst);
    assert r.Keys == (m.Keys - {src}) + {dst};
    assert |m.Keys - {src}| == |m.Keys| - 1;
  }

  /**
   * Where an existing target is parked: "_OldName" inserted before its last
   * four characters (the dot and a three-letter extension).
   */
  function BackupPath(p: Path): (b: Path)
    requires |p| >= 4
    ensures |b| == |p| + 8
    ensures b[..|p| - 4] == p[..|p| - 4]
    ensures b[|p| - 4..|p| + 4] == "_OldName"
    ensures b[|b| - 4..] == p[|p| - 4..]
  {
    p[..|p| - 4] + "_OldName" + p[|p| - 4..]
  }

  /** Distinct targets are parked at distinct backup paths, never at a target itself. */
  lemma BackupPathInjective(p: Path, q: Path)
    requires |p| >= 4 && |q| >= 4
    ensures BackupPath(p) == BackupPath(q) <==> p == q
    ensures BackupPath(p) != p
  {
    if BackupPath(p) == BackupPath(q) {
      var b := BackupPath(p);
      assert |p| == |q|;
      var n := |p| - 4;
      assert p[..n] == b[..n] == q[..n];
      assert p[n..] == b[n + 8..] == q[n..];
      assert p == p[..n] + p[n..];
      assert q == q[..n] + q[n..];
    }
  }

  /**
   * renameFileNoOverWrite: rename; when that fails, move the target to its
   * backup path and rename again. The second value is what the function
   * returns: false when the backup fails, and None on every other path,
   * where the function ends without a return statement.
   */
  function NoOverwrite(m: Files, src: Path, dst: Path): (Files, Option<bool>)
    requires |dst| >= 4
  {
    if CanRename(m, src, dst) then
      (Moved(m, src, dst), None)
    else if CanRename(m, dst, BackupPath(dst)) then
      var m1 := Moved(m, dst, BackupPath(dst));
      (if CanRename(m1, src, dst) then Moved(m1, src, dst) else m1, None)
    else
      (m, Some(false))
  }

  /**
   * The function reports failure only when the backup fails, and then leaves
   * the filesystem as it was; it never reports success.
   */
  lemma NoOverwriteReportsOnlyBackupFailure(m: Files, src: Path, dst: Path)
    requires |dst| >= 4
    ensures NoOverwrite(m, src, dst).1 != Some(true)
    ensures NoOverwrite(m, src, dst).1 == Some(false) <==>
      !CanRename(m, src, dst) && !CanRename(m, dst, BackupPath(dst))
    ensures NoOverwrite(m, src, dst).1 == Some(false) ==> NoOverwrite(m, src, dst).0 == m
  {
  }

  /**
   * When the source exists and the backup path is free, the source ends up at
   * the target, and whatever was at the target ends up at the backup path.
   */
  lemma NoOverwriteMovesSource(m: Files, src: Path, dst: Path)
    requires |dst| >= 4
    requires src in m && src != dst && BackupPath(dst) !in m
    ensures src !in NoOverwrite(m, src, dst).0
    ensures dst in NoOverwrite(m, src, dst).0 && NoOverwrite(m, src, dst).0[dst] == m[src]
    ensures dst in m ==>
      BackupPath(dst) in NoOverwrite(m, src, dst).0 && NoOverwrite(m, src, dst).0[BackupPath(dst)] == m[dst]
    ensures NoOverwrite(m, src, dst).1 == None
  {
  }

  /**
   * Renaming a file onto its own name parks it: the rename to itself fails
   * because the target exists, the file is moved to its backup path, and the
   * third rename finds no source, so the name is left empty.
   */
  lemma RenameToSelfParksFile(m: Files, path: Path)
    requires |path| >= 4
    requires path in m && BackupPath(path) !in m
    ensures path !in NoOverwrite(m, path, path).0
    ensures BackupPath(path) in NoOverwrite(m, path, path).0
    ensures NoOverwrite(m, path, path).0[BackupPath(path)] == m[path]
  {
    BackupPathInjective(path, path);
  }

  /**
   * A missing source does not stop the backup: a file already at the target
   * is still moved to its backup path, and nothing takes its place.
   */
  lemma MissingSourceStillParksTarget(m: Files, src: Path, dst: Path)
    requires |dst| >= 4
    requires src !in m && dst in m && BackupPath(dst) !in m && src != BackupPath(dst)
    ensures NoOverwrite(m, src, dst).0 == Moved(m, dst, BackupPath(dst))
    ensures dst !in NoOverwrite(m, src, dst).0
  {
  }

  /**
   * Nothing is overwritten: the number of files is unchanged, every file
   * other than the source and the target keeps its path and content, and no
   * file appears anywhere but at the target or its backup path.
   */
  lemma NoOverwriteKeepsEveryFile(m: Files, src: Path, dst: Path)
    requires |dst| >= 4
    ensures |NoOverwrite(m, src, dst).0| == |m|
    ensures forall p :: p in m && p != src && p != dst ==>
      p in NoOverwrite(m, src, dst).0 && NoOverwrite(m, src, dst).0[p] == m[p]
    ensures forall p :: p !in m && p != dst && p != BackupPath(dst) ==> p !in NoOverwrite(m, src, dst).0
  {
    var bak := BackupPath(dst);
    if CanRename(m, src, dst) {
      MovedKeepsCount(m, src, dst);
    } else if CanRename(m, dst, bak) {
      var m1 := Moved(m, dst, bak);
      MovedKeepsCount(m, dst, bak);
      if CanRename(m1, src, dst) {
        MovedKeepsCount(m1, src, dst);
      }
    }
  }

  /**
   * The filesystem the tool works on. Its only state is the map of files;
   * the renames update it in place.
   */
  class FileSystem {
    var files: Files

    constructor(initial: Files)
      ensures files == initial
    {
      files := initial;
    }

    /** VSIRename: 0 on success, -1 on failure. */
    method Rename(src: Path, dst: Path) returns (status: int)
      modifies this
      ensures status == 0 <==> CanRename(old(files), src, dst)
      ensures status == 0 ==> files == Moved(old(files), src, dst)
      ensures status != 0 ==> status == -1 && files == old(files)
    {
      if CanRename(files, src, dst) {
        files := Moved(files, src, dst);
        status := 0;
      } else {
        status := -1;
      }
    }

    /** renameFileNoOverWrite, step by step. */
    method RenameNoOverWrite(sourcePath: Path, newPath: Path) returns (ret: Option<bool>)
      requires |newPath| >= 4
      modifies this
      ensures (files, ret) == NoOverwrite(old(files), sourcePath, newPath)
    {
      ret := None;
      var success := Rename(sourcePath, newPath);
      if success == -1 {
        var newFilePathTmp := newPath[..|newPath| - 4];
        newFilePathTmp := newFilePathTmp + "_OldName" + newPath[|newPath| - 4..];
        success := Rename(newPath, newFilePathTmp);
        if success == 0 {
          success := Rename(sourcePath, newPath);
        } else {
          ret := Some(false);
        }
      }
    }
  }

  /** sDirName + "\\" + name + "." + ext: the path separator is always a backslash. */
  function NewPath(dir: Path, name: string, ext: string): (p: Path)
    ensures |p| == |dir| + |name| + |ext| + 2
    ensures p[|p| - |ext|..] == ext
  {
    dir + "\\" + name + "." + ext
  }

  /** Paths that differ only in their extension are different when the extensions are. */
  lemma NewPathInjective(dir: Path, name: string, e1: string, e2: string)
    ensures NewPath(dir, name, e1) == NewPath(dir, name, e2) <==> e1 == e2
  {
    var p1, p2 := NewPath(dir, name, e1), NewPath(dir, name, e2);
    if p1 == p2 {
      assert |e1| == |e2|;
      assert e1 == p1[|p1| - |e1|..] == p2[|p2| - |e2|..] == e2;
    }
  }

  /** The renames of the companion loop: the old base name with each extension, to the new name. */
  function CompanionPlan(dir: Path, base: string, name: string, exts: seq<string>): (plan: seq<(Path, Path)>)
    ensures |plan| == |exts|
    ensures forall i :: 0 <= i < |plan| ==>
      plan[i] == (NewPath(dir, base, exts[i]), NewPath(dir, name, exts[i]))
  {
    seq(|exts|, i requires 0 <= i < |exts| => (NewPath(dir, base, exts[i]), NewPath(dir, name, exts[i])))
  }

  /** Every target of a plan is long enough to have a backup path. */
  predicate PlanFits(plan: seq<(Path, Path)>) {
    forall i :: 0 <= i < |plan| ==> |plan[i].1| >= 4
  }

  /** The filesystem after carrying out the renames of a plan in order. */
  function RenameAll(m: Files, plan: seq<(Path, Path)>): Files
    requires PlanFits(plan)
    decreases |plan|
  {
    if plan == [] then m
    else
      var last := plan[|plan| - 1];
      NoOverwrite(RenameAll(m, plan[..|plan| - 1]), last.0, last.1).0
  }

  /** Carrying out one more step of a plan. */
  lemma RenameAllStep(m: Files, plan: seq<(Path, Path)>, i: int)
    requires PlanFits(plan) && 0 <= i < |plan|
    ensures PlanFits(plan[..i]) && PlanFits(plan[..i + 1])
    ensures RenameAll(m, plan[..i + 1]) == NoOverwrite(RenameAll(m, plan[..i]), plan[i].0, plan[i].1).0
  {
    assert plan[..i + 1][..i] == plan[..i];
  }

  /** However the individual renames fare, a plan neither creates nor destroys files. */
  lemma {:induction false} RenameAllKeepsFileCount(m: Files, plan: seq<(Path, Path)>)
    requires PlanFits(plan)
    ensures |RenameAll(m, plan)| == |m|
    decreases |plan|
  {
    if plan != [] {
      var last := plan[|plan| - 1];
      RenameAllKeepsFileCount(m, plan[..|plan| - 1]);
      NoOverwriteKeepsEveryFile(RenameAll(m, plan[..|plan| - 1]), last.0, last.1);
    }
  }

  /** A path no step of a plan names, as source, target or backup, is left alone. */
  predicate Untouched(p: Path, plan: seq<(Path, Path)>)
    requires PlanFits(plan)
  {
    forall i :: 0 <= i < |plan| ==> p != plan[i].0 && p != plan[i].1 && p != BackupPath(plan[i].1)
  }

  lemma {:induction false} RenameAllFrame(m: Files, plan: seq<(Path, Path)>, p: Path)
    requires PlanFits(plan) && p in m && Untouched(p, plan)
    ensures p in RenameAll(m, plan) && RenameAll(m, plan)[p] == m[p]
    decreases |plan|
  {
    if plan != [] {
      var last := plan[|plan| - 1];
      RenameAllFrame(m, plan[..|plan| - 1], p);
      NoOverwriteKeepsEveryFile(RenameAll(m, plan[..|plan| - 1]), last.0, last.1);
    }
  }

  /** A path no step of a plan names as target or backup. */
  predicate NotTargeted(p: Path, plan: seq<(Path, Path)>)
    requires PlanFits(plan)
  {
    forall i :: 0 <= i < |plan| ==> p != plan[i].1 && p != BackupPath(plan[i].1)
  }

  /** A plan creates files only at its targets and their backup paths. */
  lemma {:induction false} RenameAllCreatesOnlyTargets(m: Files, plan: seq<(Path, Path)>, p: Path)
    requires PlanFits(plan) && p !in m && NotTargeted(p, plan)
    ensures p !in RenameAll(m, plan)
    decreases |plan|
  {
    if plan != [] {
      var last := plan[|plan| - 1];
      RenameAllCreatesOnlyTargets(m, plan[..|plan| - 1], p);
      NoOverwriteKeepsEveryFile(RenameAll(m, plan[..|plan| - 1]), last.0, last.1);
    }
  }

  /** The companion plan of a dataset never sends two companions to the same new path. */
  lemma CompanionTargetsDistinct(dir: Path, base: string, name: string, ext: string)
    requires |ext| >= 2
    ensures forall i, j :: 0 <= i < j < |CompanionExts(ext)| ==>
      CompanionPlan(dir, base, name, CompanionExts(ext))[i].1 !=
      CompanionPlan(dir, base, name, CompanionExts(ext))[j].1
  {
    var exts := CompanionExts(ext);
    var plan := CompanionPlan(dir, base, name, exts);
    CompanionExtsDistinct(ext);
    forall i, j | 0 <= i < j < |exts|
      ensures plan[i].1 != plan[j].1
    {
      NewPathInjective(dir, name, exts[i], exts[j]);
    }
  }

  /**
   * The whole renaming of main: the dataset to its new name with its own
   * extension, then each companion extension in turn. An extension shorter
   * than two characters makes getWorldFileExt throw after the dataset has
   * been renamed, so the companions are never reached.
   */
  function DatasetRename(m: Files, filePath: Path, dir: Path, base: string, ext: string, printed: string): Files
    requires |dir| + |NameFromBuffer(printed)| + |ext| >= 2
  {
    var name := NameFromBuffer(printed);
    var afterPrimary := NoOverwrite(m, filePath, NewPath(dir, name, ext)).0;
    if |ext| < 2 then afterPrimary
    else RenameAll(afterPrimary, CompanionPlan(dir, base, name, CompanionExts(ext)))
  }

  /** Renaming a dataset and its companions neither creates nor destroys files. */
  lemma DatasetRenameKeepsFileCount(m: Files, filePath: Path, dir: Path, base: string, ext: string, printed: string)
    requires |dir| + |NameFromBuffer(printed)| + |ext| >= 2
    ensures |DatasetRename(m, filePath, dir, base, ext, printed)| == |m|
  {
    var name := NameFromBuffer(printed);
    NoOverwriteKeepsEveryFile(m, filePath, NewPath(dir, name, ext));
    if |ext| >= 2 {
      RenameAllKeepsFileCount(NoOverwrite(m, filePath, NewPath(dir, name, ext)).0,
        CompanionPlan(dir, base, name, CompanionExts(ext)));
    }
  }

  /**
   * With an extension shorter than two characters only the dataset itself is
   * renamed: every other file, its companions included, keeps its name and
   * content.
   */
  lemma ShortExtensionLeavesCompanions(m: Files, filePath: Path, dir: Path, base: string, ext: string, printed: string)
    requires |dir| + |NameFromBuffer(printed)| + |ext| >= 2
    requires |ext| < 2
    ensures forall p :: p in m && p != filePath && p != NewPath(dir, NameFromBuffer(printed), ext) ==>
      p in DatasetRename(m, filePath, dir, base, ext, printed) &&
      DatasetRename(m, filePath, dir, base, ext, printed)[p] == m[p]
  {
    NoOverwriteKeepsEveryFile(m, filePath, NewPath(dir, NameFromBuffer(printed), ext));
  }

  /**
   * The end of main: rename the dataset, then walk the companion extensions
   * and rename each "<dir>\<old base>.<ext>" to "<dir>\<new name>.<ext>".
   * The outcome of each rename is ignored. aborted is true when
   * getWorldFileExt throws on a short extension, which ends the program.
   */
  method RenameDataset(fs: FileSystem, filePath: Path, dir: Path, base: string, ext: string, printed: string)
    returns (aborted: bool)
    requires |dir| + |NameFromBuffer(printed)| + |ext| >= 2
    modifies fs
    ensures aborted <==> |ext| < 2
    ensures fs.files == DatasetRename(old(fs.files), filePath, dir, base, ext, printed)
  {
    var name := NameFromBuffer(printed);
    var newFilePath := NewPath(dir, name, ext);
    var success := fs.RenameNoOverWrite(filePath, newFilePath);
    if |ext| < 2 {
      return true;
    }
    aborted := false;
    var exts := GetCompFilesExt(ext);
    ghost var plan := CompanionPlan(dir, base, name, exts);
    assert PlanFits(plan);
    ghost var start := fs.files;
    var i := 0;
    while i < |exts|
      invariant 0 <= i <= |exts|
      invariant PlanFits(plan[..i])
      invariant fs.files == RenameAll(start, plan[..i])
    {
      var curCompFileName := dir + "\\" + base + "." + exts[i];
      var newCompFilePath := NewPath(dir, name, exts[i]);
      assert (curCompFileName, newCompFilePath) == plan[i];
      success := fs.RenameNoOverWrite(curCompFileName, newCompFilePath);
      RenameAllStep(start, plan, i);
      i := i + 1;
    }
    assert plan[..|exts|] == plan;
  }
}
