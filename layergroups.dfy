/** Building a customer's layer group from the layers of its workspace, in
    both generations. */
module LayerGroups {
  import opened Wrappers
  import opened Text
  import opened GeoServer

  /** The layers of `layers` that satisfy `keep`, in their order. */
  function Filter(layers: seq<string>, keep: string -> bool): (r: seq<string>)
    ensures |r| <= |layers|
    ensures forall n :: n in r <==> n in layers && keep(n)
  {
    if layers == [] then []
    else if keep(layers[0]) then [layers[0]] + Filter(layers[1..], keep)
    else Filter(layers[1..], keep)
  }

  /** Filtering a concatenation filters each part in turn: the filter keeps
      the input order. */
  lemma {:induction false} FilterConcat(a: seq<string>, b: seq<string>, keep: string -> bool)
    ensures Filter(a + b, keep) == Filter(a, keep) + Filter(b, keep)
    decreases |a|
  {
    if a != [] {
      assert (a + b)[1..] == a[1..] + b;
      FilterConcat(a[1..], b, keep);
    } else {
      assert a + b == b;
    }
  }

  /** The current generation's raster test: the name mentions neither
      "_points" nor "_analysis". */
  predicate IsRasterName(n: string)
  {
    !Contains(n, "_points") && !Contains(n, "_analysis")
  }

  predicate MentionsPoints(n: string) { Contains(n, "_points") }
  predicate MentionsAnalysis(n: string) { Contains(n, "_analysis") }

  /** The first generation's tests look at the end of the name. */
  predicate EndsPoints(n: string) { EndsWith(n, "_points") }
  predicate EndsAnalysis(n: string) { EndsWith(n, "_analysis") }
  predicate EndsRaster(n: string) { !EndsWith(n, "_points") && !EndsWith(n, "_analysis") }

  /** The current group: raster layers only, each styled "raster". */
  function RasterGroup(layers: seq<string>): (g: Group)
    ensures |g.layers| == |g.styles|
    ensures forall n :: n in g.layers <==> n in layers && IsRasterName(n)
    ensures forall i :: 0 <= i < |g.styles| ==> g.styles[i] == "raster"
  {
    var raster := Filter(layers, IsRasterName);
    Group(raster, Repeat("raster", |raster|))
  }

  /** The first generation's group order: raster, then analysis, then
      points layers. */
  function LegacyGroupLayers(layers: seq<string>): seq<string>
  {
    Filter(layers, EndsRaster) + Filter(layers, EndsAnalysis) + Filter(layers, EndsPoints)
  }

  /** The style list the first generation computes for that order: "raster"
      for raster and analysis layers, "<workspace>:<layer>" for points. */
  function LegacyGroupStyles(ws: string, layers: seq<string>): (styles: seq<string>)
    ensures |styles| == |LegacyGroupLayers(layers)|
    ensures var n := |Filter(layers, EndsRaster)| + |Filter(layers, EndsAnalysis)|;
      forall i :: 0 <= i < |styles| ==>
        styles[i] == if i < n then "raster" else ws + ":" + LegacyGroupLayers(layers)[i]
  {
    var points := Filter(layers, EndsPoints);
    Repeat("raster", |Filter(layers, EndsRaster)| + |Filter(layers, EndsAnalysis)|)
      + seq(|points|, i requires 0 <= i < |points| => ws + ":" + points[i])
  }

  lemma NotBothSuffixes(n: string)
    ensures !(EndsPoints(n) && EndsAnalysis(n))
  {
    if EndsPoints(n) {
      assert n[|n| - 7] == '_';
    }
    if EndsAnalysis(n) {
      assert n[|n| - 7] == 'n';
    }
  }

  /** Every layer lands in exactly one of the three classes: the first
      generation's group holds each layer of the workspace once. */
  lemma {:induction false} LegacyGroupPermutes(layers: seq<string>)
    ensures multiset(LegacyGroupLayers(layers)) == multiset(layers)
    decreases |layers|
  {
    if layers != [] {
      var x, rest := layers[0], layers[1..];
      assert layers == [x] + rest;
      FilterConcat([x], rest, EndsRaster);
      FilterConcat([x], rest, EndsAnalysis);
      FilterConcat([x], rest, EndsPoints);
      NotBothSuffixes(x);
      LegacyGroupPermutes(rest);
    }
  }

  /** The current `createLayerGroupFromWorkspace`: list the workspace's
      layers; with none, stop; otherwise create the raster group. The group
      and workspace arguments reach `createLayerGroup` swapped, as in the
      source. */
  function GroupFromWorkspace(t: Trace, failing: set<Call>, ws: string, group: string): Trace
  {
    if !t.ok then t
    else
      var t1 := Step(t, failing, GetLayers(ws));
      if !t1.ok then t1
      else match LayerList(t.server, ws)
        case None => t1
        case Some(layers) =>
          var g := RasterGroup(layers);
          Step(t1, failing, CreateLayerGroup(ws, group, g.layers, g.styles))
  }

  /** The first generation: an undefined layer list throws (its length is
      read) and the group goes through the three-argument `createLayerGroup`,
      which drops the computed styles and styles every layer "raster". */
  function GroupFromWorkspaceLegacy(t: Trace, failing: set<Call>, ws: string, group: string): Trace
  {
    if !t.ok then t
    else
      var t1 := Step(t, failing, GetLayers(ws));
      if !t1.ok then t1
      else match LayerList(t.server, ws)
        case None => t1.(ok := false)
        case Some(layers) => Step(t1, failing, CreateRasterLayerGroup(ws, group, LegacyGroupLayers(layers)))
  }

  /** A workspace without layers gets no group; otherwise the group holds
      exactly its raster layers, each styled "raster", and is created even
      when that selection is empty. */
  lemma RasterGroupOutcome(t: Trace, failing: set<Call>, ws: string, group: string)
    requires t.ok && ws in t.server.workspaces && GetLayers(ws) !in failing
    ensures var r := GroupFromWorkspace(t, failing, ws, group);
      var layers := t.server.workspaces[ws];
      (layers == [] ==> r == Trace(t.server, t.calls + [GetLayers(ws)], true))
      && (layers != [] ==>
            r.calls == t.calls + [GetLayers(ws), CreateLayerGroup(ws, group, Filter(layers, IsRasterName),
                                                                  Repeat("raster", |Filter(layers, IsRasterName)|))])
  {
    var layers := t.server.workspaces[ws];
    if layers != [] {
      assert t.calls + [GetLayers(ws)] + [CreateLayerGroup(ws, group, Filter(layers, IsRasterName),
        Repeat("raster", |Filter(layers, IsRasterName)|))] == t.calls + [GetLayers(ws), CreateLayerGroup(ws, group,
        Filter(layers, IsRasterName), Repeat("raster", |Filter(layers, IsRasterName)|))];
    }
  }

  /** In the first generation, a workspace without layers makes the call
      throw and no group is created. */
  lemma LegacyEmptyWorkspaceThrows(t: Trace, failing: set<Call>, ws: string, group: string)
    requires t.ok && ws in t.server.workspaces && t.server.workspaces[ws] == []
    ensures var r := GroupFromWorkspaceLegacy(t, failing, ws, group);
      !r.ok && r.server == t.server && r.calls == t.calls + [GetLayers(ws)]
  {
  }

  /** The current `createLayerGroupFromWorkspace`. */
  method CreateLayerGroupFromWorkspace(gs: Backend, ws: string, group: string) returns (ok: bool)
    modifies gs
    ensures Trace(gs.server, gs.log, ok) == GroupFromWorkspace(Trace(old(gs.server), old(gs.log), true), gs.failing, ws, group)
  {
    var layers := gs.FetchLayers(ws);
    if layers.Threw? {
      return false;
    }
    if layers.value.None? {
      return true;
    }
    var g := RasterGroup(layers.value.value);
    ok := gs.Send(CreateLayerGroup(ws, group, g.layers, g.styles));
  }

  /** The first-generation `createLayerGroupFromWorkspace`. */
  method CreateLayerGroupFromWorkspaceLegacy(gs: Backend, ws: string, group: string) returns (ok: bool)
    modifies gs
    ensures Trace(gs.server, gs.log, ok) ==
      GroupFromWorkspaceLegacy(Trace(old(gs.server), old(gs.log), true), gs.failing, ws, group)
  {
    var layers := gs.FetchLayers(ws);
    if layers.Threw? || layers.value.None? {
      return false;
    }
    ok := gs.Send(CreateRasterLayerGroup(ws, group, LegacyGroupLayers(layers.value.value)));
  }
}
