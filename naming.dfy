/** The GeoServer names derived from a dataset structure. */
module Naming {
  import opened Wrappers
  import opened Text
  import opened Classify

  datatype Names = Names(workspaceName: string, layerGroupName: string, storeName: string,
                         layerName: string, nativeName: string, styleName: string)

  /** The first generation derives only a workspace and a store name. */
  datatype LegacyNames = LegacyNames(workspaceName: string, storeName: string)

  /** The workspace of a customer's year, `<customer>_<year>`. */
  function WorkspaceOf(s: Structure): string
  {
    s.customer + "_" + s.year
  }

  /** The current `getGeoserverNames`. One workspace and one layer group per
      customer and year; one store per dataset inside it; layers carry a
      suffix that says their type; points and analysis styles are named
      after their layer. A "styles" dataset such as "points/x" has its
      first '/' replaced by '_' (the source replaces only the first one). */
  function GetGeoserverNames(s: Structure): (n: Names)
    requires s.kind == STYLES ==> s.dataset.Some?
    ensures n.workspaceName == WorkspaceOf(s) && n.layerGroupName == n.workspaceName
    ensures n.storeName == n.workspaceName + "_" + TemplateText(s.dataset)
    ensures StartsWith(n.layerName, n.storeName)
    ensures s.kind == POINTS ==>
      n.layerName == n.storeName + "_points" && n.styleName == n.layerName + "_default"
      && n.nativeName == TemplateText(s.dataset) + "_output"
    ensures s.kind == ANALYSIS ==>
      n.layerName == n.storeName + "_analysis" && n.styleName == n.layerName + "_default" && n.nativeName == ""
    ensures s.kind == STYLES ==>
      n.layerName == n.storeName && n.nativeName == ""
      && n.styleName == n.workspaceName + "_" + ReplaceFirst(s.dataset.value, '/', '_')
    ensures s.kind != POINTS && s.kind != ANALYSIS && s.kind != STYLES ==>
      n.layerName == n.storeName && n.nativeName == "" && n.styleName == ""
  {
    var ws := WorkspaceOf(s);
    var store := ws + "_" + TemplateText(s.dataset);
    if s.kind == POINTS then
      Names(ws, ws, store, store + "_points", TemplateText(s.dataset) + "_output", store + "_points_default")
    else if s.kind == ANALYSIS then
      Names(ws, ws, store, store + "_analysis", "", store + "_analysis_default")
    else if s.kind == STYLES then
      Names(ws, ws, store, store, "", ws + "_" + ReplaceFirst(s.dataset.value, '/', '_'))
    else
      Names(ws, ws, store, store, "", "")
  }

  /** The first-generation `getGeoserverNames`. */
  function GetGeoserverNamesLegacy(s: Structure): (n: LegacyNames)
    ensures n.workspaceName == WorkspaceOf(s) && n.storeName == n.workspaceName
  {
    LegacyNames(WorkspaceOf(s), WorkspaceOf(s))
  }

  /** Both generations publish a dataset in the same workspace. */
  lemma GenerationsShareWorkspace(s: Structure)
    requires s.kind == STYLES ==> s.dataset.Some?
    ensures GetGeoserverNamesLegacy(s).workspaceName == GetGeoserverNames(s).workspaceName
  {
  }

  /** Within one workspace, two datasets of the same type get the same store
      and layer name only when their dataset names are equal: publishing one
      dataset never overwrites another. */
  lemma {:induction false} NamesSeparateDatasets(s: Structure, t: Structure)
    requires s.customer == t.customer && s.year == t.year && s.kind == t.kind
    requires s.kind != STYLES
    requires TemplateText(s.dataset) != TemplateText(t.dataset)
    ensures GetGeoserverNames(s).storeName != GetGeoserverNames(t).storeName
    ensures GetGeoserverNames(s).layerName != GetGeoserverNames(t).layerName
  {
    var ws := WorkspaceOf(s) + "_";
    var a, b := TemplateText(s.dataset), TemplateText(t.dataset);
    assert (ws + a)[|ws|..] == a && (ws + b)[|ws|..] == b;
  }

  /** A points layer and an analysis layer never end alike, so the group
      filters that look for the two suffixes tell them apart. */
  lemma TypeSuffixes(s: Structure)
    ensures s.kind == POINTS ==> EndsWith(GetGeoserverNames(s).layerName, "_points")
    ensures s.kind == ANALYSIS ==> EndsWith(GetGeoserverNames(s).layerName, "_analysis")
  {
  }
}
