/**
 * The companion files renamed together with a dataset: the world file, whose
 * extension is derived from the dataset's, and a fixed list per format.
 */
module Companions {
  import opened CStrings

  /**
   * getWorldFileExt: first and third characters of the extension followed by
   * a lower-case 'w' ("tif" gives "tfw"). The extension keeps its own case;
   * a two-character extension has no third character and gives two.
   */
  function WorldFileExt(ext: string): (w: string)
    requires |ext| >= 2
    ensures |ext| >= 3 ==> w == [ext[0], ext[2], 'w']
    ensures |ext| == 2 ==> w == [ext[0], 'w']
  {
    ext[..1] + (if |ext| > 2 then ext[2..3] else "") + "w"
  }

  /** The companions a format adds after the world file, keyed on the extension without regard to case. */
  function FormatCompanions(ext: string): seq<string> {
    if Equal(ext, "tif") then ["prj"]
    else if Equal(ext, "ecw") then ["ers"]
    else if Equal(ext, "img") then ["led", "nul", "trl", "vol"]
    else if Equal(ext, "jp2") || Equal(ext, "j2k") then ["prj"]
    else []
  }

  /** The companion extensions of a dataset: its world file first, then its format's own. */
  function CompanionExts(ext: string): (exts: seq<string>)
    requires |ext| >= 2
    ensures |exts| >= 1 && exts[0] == WorldFileExt(ext)
    ensures forall i :: 0 <= i < |exts| ==> |exts[i]| >= 2
  {
    [WorldFileExt(ext)] + FormatCompanions(ext)
  }

  /** Spelling out Lower on three-character strings. */
  lemma LowerTriple(s: string)
    requires |s| == 3
    ensures Lower(s) == [ToLower(s[0]), ToLower(s[1]), ToLower(s[2])]
  {
  }

  /** At most one of the format names matches an extension. */
  lemma FormatNamesExclusive(ext: string)
    ensures Equal(ext, "tif") ==> !Equal(ext, "ecw") && !Equal(ext, "img") && !Equal(ext, "jp2") && !Equal(ext, "j2k")
    ensures Equal(ext, "ecw") ==> !Equal(ext, "img") && !Equal(ext, "jp2") && !Equal(ext, "j2k")
    ensures Equal(ext, "img") ==> !Equal(ext, "jp2") && !Equal(ext, "j2k")
  {
    LowerTriple("tif"); LowerTriple("ecw"); LowerTriple("img"); LowerTriple("jp2"); LowerTriple("j2k");
  }

  /**
   * getCompFilesExt: push the world-file extension, then the format's own
   * companions, each test comparing the extension without regard to case.
   */
  method GetCompFilesExt(ext: string) returns (compFilesExt: seq<string>)
    requires |ext| >= 2
    ensures compFilesExt == CompanionExts(ext)
  {
    FormatNamesExclusive(ext);
    compFilesExt := [];
    compFilesExt := compFilesExt + [WorldFileExt(ext)];
    if Equal(ext, "tif") {
      compFilesExt := compFilesExt + ["prj"];
    }
    if Equal(ext, "ecw") {
      compFilesExt := compFilesExt + ["ers"];
    }
    if Equal(ext, "img") {
      compFilesExt := compFilesExt + ["led"];
      compFilesExt := compFilesExt + ["nul"];
      compFilesExt := compFilesExt + ["trl"];
      compFilesExt := compFilesExt + ["vol"];
    }
    if Equal(ext, "jp2") || Equal(ext, "j2k") {
      compFilesExt := compFilesExt + ["prj"];
    }
  }

  /**
   * The table in terms of the lower-cased extension: the format test ignores
   * case, and every extension outside the table gets only its world file.
   */
  lemma CompanionExtsTable(ext: string)
    requires |ext| >= 2
    ensures Lower(ext) == "tif" ==> CompanionExts(ext) == [WorldFileExt(ext), "prj"]
    ensures Lower(ext) == "ecw" ==> CompanionExts(ext) == [WorldFileExt(ext), "ers"]
    ensures Lower(ext) == "img" ==> CompanionExts(ext) == [WorldFileExt(ext)] + ["led", "nul", "trl", "vol"]
    ensures Lower(ext) in {"jp2", "j2k"} ==> CompanionExts(ext) == [WorldFileExt(ext), "prj"]
    ensures Lower(ext) !in {"tif", "ecw", "img", "jp2", "j2k"} ==> CompanionExts(ext) == [WorldFileExt(ext)]
  {
    LowerTriple("tif"); LowerTriple("ecw"); LowerTriple("img"); LowerTriple("jp2"); LowerTriple("j2k");
    FormatNamesExclusive(ext);
    var l := Lower(ext);
    if l == "tif" {
      assert Equal(ext, "tif");
    } else if l == "ecw" {
      assert Equal(ext, "ecw");
    } else if l == "img" {
      assert Equal(ext, "img");
    } else if l == "jp2" || l == "j2k" {
      assert Equal(ext, "jp2") || Equal(ext, "j2k");
    } else {
      assert !Equal(ext, "tif") && !Equal(ext, "ecw") && !Equal(ext, "img");
      assert !Equal(ext, "jp2") && !Equal(ext, "j2k");
      assert FormatCompanions(ext) == [];
    }
  }

  /** Two extensions that differ only in case have the same format companions. */
  lemma CompanionExtsIgnoreCase(a: string, b: string)
    requires |a| >= 2 && |b| >= 2 && Lower(a) == Lower(b)
    ensures CompanionExts(a)[1..] == CompanionExts(b)[1..]
  {
    assert FormatCompanions(a) == FormatCompanions(b);
    assert CompanionExts(a)[1..] == FormatCompanions(a);
    assert CompanionExts(b)[1..] == FormatCompanions(b);
  }

  /** "tif" and "TIF": the world-file extension copies the dataset's case. */
  lemma TifCompanions()
    ensures CompanionExts("tif") == ["tfw", "prj"]
    ensures CompanionExts("TIF") == ["TFw", "prj"]
  {
    LowerTriple("tif");
    LowerTriple("TIF");
  }

  /** No companion extension is listed twice, so no two companions share a new name. */
  lemma CompanionExtsDistinct(ext: string)
    requires |ext| >= 2
    ensures forall i, j :: 0 <= i < j < |CompanionExts(ext)| ==> CompanionExts(ext)[i] != CompanionExts(ext)[j]
  {
    var exts := CompanionExts(ext);
    var w := WorldFileExt(ext);
    assert w[|w| - 1] == 'w';
    forall i | 1 <= i < |exts|
      ensures exts[i][|exts[i]| - 1] != 'w'
    {
    }
  }
}
