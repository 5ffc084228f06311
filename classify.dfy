/** Classification of a file path into a dataset structure: the folder
    convention files/<customer>/<year>/<type>/<dataset>. */
module Classify {
  import opened Wrappers
  import opened Text

  const RASTER := "raster"
  const POINTS := "points"
  const ANALYSIS := "analysis"
  const STYLES := "styles"
  const FILES_ROOT := "files/"

  /** A dataset's identity. `kind` is the source's `type` field; `dataset`
      is `None` where the source leaves it `undefined` (a raster path that
      stops at its type folder). */
  datatype Structure = Structure(customer: string, year: string, kind: string, dataset: Option<string>, dir: string)

  /** Windows separators become '/'. */
  function Normalize(path: string): (r: string)
    ensures |r| == |path| && '\\' !in r
  {
    ReplaceChar(path, '\\', '/')
  }

  function Min(a: nat, b: nat): nat { if a < b then a else b }

  /** The folder segments the current classifier reads: the whole path, or,
      with `fullPath`, "files/" followed by what lies between the first and
      the second "files/" (the text "undefined" when there is none). */
  function Segments(path: string, fullPath: bool): seq<string>
  {
    var p := Normalize(path);
    if fullPath then Split(FILES_ROOT + TemplateText(SecondPiece(p, FILES_ROOT)), '/')
    else Split(p, '/')
  }

  /** The first-generation classifier's segments: with `fullPath`, only the
      last five segments of the path; no separator normalisation. */
  function LegacySegments(path: string, fullPath: bool): (segs: seq<string>)
    ensures fullPath ==> |segs| <= 5
  {
    var all := Split(path, '/');
    if fullPath && |all| > 5 then all[|all| - 5..] else all
  }

  /** `d` is the text of a file name up to its first '.': a prefix of it
      without a '.', followed by a '.' or by the end of the name. */
  predicate BeforeFirstDot(name: string, d: string)
  {
    StartsWith(name, d) && '.' !in d && (|d| == |name| || name[|d|] == '.')
  }

  /** The decision on the segments shared by both generations. Reading the
      type of a path with fewer than four segments, or splitting the
      missing dataset of a points or analysis path, throws in the source;
      the error is caught and the path rejected. */
  function FromSegments(segs: seq<string>, trimExtension: bool): (r: Option<Structure>)
    ensures r.Some? ==> |segs| >= 4 && r.value.kind == Lower(segs[3])
    ensures r.Some? ==> r.value.kind == RASTER || r.value.kind == POINTS || r.value.kind == ANALYSIS
    ensures r.Some? ==> r.value.customer == segs[1] && r.value.year == segs[2]
    ensures r.Some? ==> r.value.dir == Join(segs[..Min(5, |segs|)], '/')
    ensures r.Some? && (r.value.kind == RASTER || !trimExtension) ==>
      r.value.dataset == (if |segs| > 4 then Some(segs[4]) else None)
    ensures r.Some? && r.value.kind != RASTER && trimExtension ==>
      |segs| > 4 && r.value.dataset.Some? && BeforeFirstDot(segs[4], r.value.dataset.value)
  {
    if |segs| < 4 then None
    else
      var t := Lower(segs[3]);
      var dataset := if |segs| > 4 then Some(segs[4]) else None;
      var dir := Join(segs[..Min(5, |segs|)], '/');
      if t == RASTER then Some(Structure(segs[1], segs[2], RASTER, dataset, dir))
      else if t == POINTS || t == ANALYSIS then
        if !trimExtension then Some(Structure(segs[1], segs[2], t, dataset, dir))
        else if |segs| < 5 then None
        else Some(Structure(segs[1], segs[2], t, Some(Split(segs[4], '.')[0]), dir))
      else None
  }

  /** The current `checkStructure`. Accepted structures have one of the three
      publishable types (never "styles"), read from segment 3 in any letter
      case; customer and year are segments 1 and 2 and the directory is the
      first five segments. A raster dataset is segment 4 verbatim (absent
      when the path stops at the type folder); a points or analysis dataset
      is segment 4 up to its first '.'. */
  function CheckStructure(path: string, fullPath: bool): (r: Option<Structure>)
    ensures r.Some? ==> r.value.kind == RASTER || r.value.kind == POINTS || r.value.kind == ANALYSIS
    ensures var segs := Segments(path, fullPath);
      r.Some? ==> |segs| >= 4 && r.value.kind == Lower(segs[3])
                  && r.value.customer == segs[1] && r.value.year == segs[2]
                  && r.value.dir == Join(segs[..Min(5, |segs|)], '/')
    ensures var segs := Segments(path, fullPath);
      r.Some? && r.value.kind == RASTER ==> r.value.dataset == (if |segs| > 4 then Some(segs[4]) else None)
    ensures var segs := Segments(path, fullPath);
      r.Some? && r.value.kind != RASTER ==>
        |segs| > 4 && r.value.dataset.Some? && BeforeFirstDot(segs[4], r.value.dataset.value)
  {
    FromSegments(Segments(path, fullPath), true)
  }

  /** The first-generation `checkStructure`: the dataset is segment 4
      verbatim for every type. */
  function CheckStructureLegacy(path: string, fullPath: bool): (r: Option<Structure>)
    ensures r.Some? ==> r.value.kind == RASTER || r.value.kind == POINTS || r.value.kind == ANALYSIS
    ensures r.Some? ==> r.value.dataset == (if |LegacySegments(path, fullPath)| > 4 then Some(LegacySegments(path, fullPath)[4]) else None)
  {
    FromSegments(LegacySegments(path, fullPath), false)
  }

  /** A path is accepted exactly when its type segment names raster, points
      or analysis in any letter case, and a points or analysis path also
      has a dataset segment. */
  lemma AcceptedExactly(path: string)
    ensures var segs := Segments(path, false);
      CheckStructure(path, false).Some? <==>
        (|segs| >= 4 && (Lower(segs[3]) == RASTER || ((Lower(segs[3]) == POINTS || Lower(segs[3]) == ANALYSIS) && |segs| >= 5)))
  {
  }

  /** Backslash and slash spellings of a path classify alike. */
  lemma {:induction false} SeparatorInsensitive(path: string, fullPath: bool)
    ensures CheckStructure(path, fullPath) == CheckStructure(Normalize(path), fullPath)
  {
    assert Normalize(Normalize(path)) == Normalize(path);
  }

  /** The dataset directory is a prefix of the (normalised) path, so every
      file of a dataset shares it. */
  lemma {:induction false} DirIsPathPrefix(path: string)
    requires CheckStructure(path, false).Some?
    ensures StartsWith(Normalize(path), CheckStructure(path, false).value.dir)
  {
    var segs := Split(Normalize(path), '/');
    JoinSplit(Normalize(path), '/');
    JoinPrefix(segs, Min(5, |segs|), '/');
  }

  /** A path without a "files/" segment is rejected in full-path mode. */
  lemma {:induction false} FullPathNeedsFilesRoot(path: string)
    requires !Contains(Normalize(path), FILES_ROOT)
    ensures CheckStructure(path, true) == None
  {
    assert FILES_ROOT + "undefined" == "files" + ['/'] + "undefined";
    SplitAtOnlySeparator("files", "undefined", '/');
  }

  /** For a path that starts at the "files/" root and does not repeat it,
      full-path mode reads the same segments as plain mode. */
  lemma {:induction false} FullPathAgreesAtRoot(path: string)
    requires '\\' !in path && StartsWith(path, FILES_ROOT)
    requires !Contains(path[|FILES_ROOT|..], FILES_ROOT)
    ensures CheckStructure(path, true) == CheckStructure(path, false)
  {
    assert Normalize(path) == path;
    assert OccursAt(path, FILES_ROOT, 0);
    var rest := path[|FILES_ROOT|..];
    assert FindFrom(rest, FILES_ROOT, 0).None?;
    assert SecondPiece(path, FILES_ROOT) == Some(rest);
    assert FILES_ROOT + rest == path;
  }

  /** On a path of exactly the five conventional segments whose dataset has
      no extension, both generations of the classifier agree, in both modes. */
  lemma {:induction false} GenerationsAgree(path: string)
    requires '\\' !in path
    requires var segs := Split(path, '/'); |segs| == 5 && '.' !in segs[4]
    ensures CheckStructureLegacy(path, true) == CheckStructureLegacy(path, false) == CheckStructure(path, false)
  {
    assert Normalize(path) == path;
  }
}
