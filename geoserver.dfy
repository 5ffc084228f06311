/** The collaborators every publishing workflow drives: the GDAL transforms
    and the GeoServer REST API, as one abstract backend. Its state is the
    map from workspace to layer names plus the stores, the layer groups and
    the styles; every call made is appended to a ghost log. A call fails
    when it is one of the environment's `failing` calls, or when the
    workspace or store it addresses does not exist. A failure changes
    nothing, except in the wrappers that delete an existing store or group
    before they post its replacement: a failed post leaves it deleted. */
module GeoServer {
  import opened Wrappers
  import opened Text

  datatype Call =
    | Transform(kind: string, dir: string)
    | ReadStyle(dir: string)
    | CreateWorkspace(ws: string)
    | CreateStore(ws: string, store: string, source: string)
    | CreateShapefileStore(ws: string, store: string, source: string)
    | CreateLayer(ws: string, store: string, layer: string)
    | CreateVectorLayer(ws: string, store: string, layer: string, style: string, native: string)
    | CreateStyle(ws: string, style: string)
    | CreateDefaultStyle(ws: string, style: string)
    | GetLayers(ws: string)
    | CreateLayerGroup(group: string, ws: string, layers: seq<string>, styles: seq<string>)
    | CreateRasterLayerGroup(group: string, ws: string, layers: seq<string>)
    | RemoveLayerGroup(ws: string, group: string)
    | RemoveLayer(ws: string, layer: string)
    | GetWorkspaces
    | RemoveWorkspace(ws: string)

  /** A layer group: its layers and one style per layer. */
  datatype Group = Group(layers: seq<string>, styles: seq<string>)

  /** The server: each workspace's layers, the (workspace, store) pairs,
      the layer groups by (workspace, group) and the (workspace, style)
      pairs. */
  datatype Server = Server(workspaces: map<string, seq<string>>, stores: set<(string, string)>,
                           groups: map<(string, string), Group>, styles: set<(string, string)>)

  /** The state of a run of calls: the server, the calls made so far, and
      whether every one of them succeeded. */
  datatype Trace = Trace(server: Server, calls: seq<Call>, ok: bool)

  /** The name GeoServer gives a style: lower case, spaces as '_'. */
  function StyleName(name: string): (r: string)
    ensures |r| == |name| && ' ' !in r
  {
    ReplaceChar(Lower(name), ' ', '_')
  }

  /** Calls that act inside an existing workspace. */
  predicate NeedsWorkspace(c: Call)
  {
    c.CreateStore? || c.CreateShapefileStore? || c.CreateLayer? || c.CreateVectorLayer? || c.CreateStyle?
    || c.CreateDefaultStyle? || c.GetLayers? || c.CreateLayerGroup? || c.CreateRasterLayerGroup?
  }

  /** Calls that publish a layer from an existing store. */
  predicate NeedsStore(c: Call)
  {
    c.CreateLayer? || c.CreateVectorLayer?
  }

  predicate Fails(s: Server, failing: set<Call>, c: Call)
  {
    c in failing || (NeedsWorkspace(c) && c.ws !in s.workspaces) || (NeedsStore(c) && (c.ws, c.store) !in s.stores)
  }

  /** What a failing call leaves behind. `createStore`,
      `createShapefileStore` and `createLayerGroup` delete the store or
      group of that name when it exists and then post the new one; when
      the post is what fails, the old one is gone. Every other call, and a
      call into a missing workspace, leaves the server as it was. */
  function Failed(s: Server, c: Call): (r: Server)
    ensures r.workspaces == s.workspaces && r.styles == s.styles
    ensures (c.CreateStore? || c.CreateShapefileStore?) && c.ws in s.workspaces ==>
      r.stores == s.stores - {(c.ws, c.store)} && r.groups == s.groups
    ensures (c.CreateLayerGroup? || c.CreateRasterLayerGroup?) && c.ws in s.workspaces ==>
      r.groups == s.groups - {(c.ws, c.group)} && r.stores == s.stores
    ensures !c.CreateStore? && !c.CreateShapefileStore? && !c.CreateLayerGroup? && !c.CreateRasterLayerGroup? ==> r == s
  {
    if NeedsWorkspace(c) && c.ws !in s.workspaces then s
    else match c
      case CreateStore(ws, store, _) => s.(stores := s.stores - {(ws, store)})
      case CreateShapefileStore(ws, store, _) => s.(stores := s.stores - {(ws, store)})
      case CreateLayerGroup(group, ws, _, _) => s.(groups := s.groups - {(ws, group)})
      case CreateRasterLayerGroup(group, ws, _) => s.(groups := s.groups - {(ws, group)})
      case _ => s
  }

  function Without(names: seq<string>, name: string): (r: seq<string>)
    ensures name !in r
    ensures forall n :: n in r <==> n in names && n != name
  {
    if names == [] then []
    else if names[0] == name then Without(names[1..], name)
    else [names[0]] + Without(names[1..], name)
  }

  function Repeat(x: string, n: nat): (r: seq<string>)
    ensures |r| == n && forall i :: 0 <= i < n ==> r[i] == x
  {
    seq(n, _ => x)
  }

  /** What a successful call does to the server. */
  function Effect(s: Server, c: Call): Server
  {
    match c
    case CreateWorkspace(ws) =>
      if ws in s.workspaces then s else s.(workspaces := s.workspaces[ws := []])
    case CreateStore(ws, store, _) => s.(stores := s.stores + {(ws, store)})
    case CreateShapefileStore(ws, store, _) => s.(stores := s.stores + {(ws, store)})
    case CreateLayer(ws, _, layer) =>
      if ws !in s.workspaces then s
      else s.(workspaces := s.workspaces[ws := Without(s.workspaces[ws], layer) + [layer]])
    case CreateVectorLayer(ws, _, layer, _, _) =>
      if ws !in s.workspaces then s
      else s.(workspaces := s.workspaces[ws := Without(s.workspaces[ws], layer) + [layer]])
    case CreateStyle(ws, style) => s.(styles := s.styles + {(ws, StyleName(style))})
    case CreateDefaultStyle(ws, style) => s.(styles := s.styles + {(ws, StyleName(style))})
    case CreateLayerGroup(group, ws, layers, styles) => s.(groups := s.groups[(ws, group) := Group(layers, styles)])
    case CreateRasterLayerGroup(group, ws, layers) =>
      s.(groups := s.groups[(ws, group) := Group(layers, Repeat("raster", |layers|))])
    case RemoveLayerGroup(ws, group) => s.(groups := s.groups - {(ws, group)})
    case RemoveLayer(ws, layer) =>
      if ws !in s.workspaces then s else s.(workspaces := s.workspaces[ws := Without(s.workspaces[ws], layer)])
    case RemoveWorkspace(ws) =>
      Server(s.workspaces - {ws}, set st | st in s.stores && st.0 != ws,
             map k | k in s.groups && k.0 != ws :: s.groups[k], set st | st in s.styles && st.0 != ws)
    case _ => s
  }

  /** One call of a run: after a failure nothing more is called. */
  function Step(t: Trace, failing: set<Call>, c: Call): (r: Trace)
    ensures !t.ok ==> r == t
    ensures t.ok ==> r.calls == t.calls + [c] && (r.ok <==> !Fails(t.server, failing, c))
    ensures t.ok && !r.ok ==> r.server == Failed(t.server, c)
  {
    if !t.ok then t
    else if Fails(t.server, failing, c) then Trace(Failed(t.server, c), t.calls + [c], false)
    else Trace(Effect(t.server, c), t.calls + [c], true)
  }

  /** A fixed sequence of calls, stopping at the first failure. */
  function Steps(t: Trace, failing: set<Call>, plan: seq<Call>): Trace
    decreases |plan|
  {
    if plan == [] then t else Steps(Step(t, failing, plan[0]), failing, plan[1..])
  }

  lemma {:induction false} StepsAppend(t: Trace, failing: set<Call>, plan: seq<Call>, c: Call)
    ensures Steps(t, failing, plan + [c]) == Step(Steps(t, failing, plan), failing, c)
    decreases |plan|
  {
    if plan == [] {
      assert Steps(Step(t, failing, c), failing, []) == Step(t, failing, c);
      assert [] + [c] == [c];
    } else {
      assert (plan + [c])[1..] == plan[1..] + [c];
      StepsAppend(Step(t, failing, plan[0]), failing, plan[1..], c);
    }
  }

  /** A run makes the calls of its plan in order, up to and including the
      first one that fails, and no call after it; a run that succeeds made
      every call of the plan. */
  lemma {:induction false} StepsCallPrefix(t: Trace, failing: set<Call>, plan: seq<Call>)
    requires t.ok
    ensures var r := Steps(t, failing, plan);
      exists n :: 0 <= n <= |plan| && r.calls == t.calls + plan[..n] && (r.ok ==> n == |plan|)
    decreases |plan|
  {
    if plan == [] {
      assert Steps(t, failing, plan).calls == t.calls + plan[..0];
    } else {
      var t1 := Step(t, failing, plan[0]);
      if t1.ok {
        StepsCallPrefix(t1, failing, plan[1..]);
        var n :| 0 <= n <= |plan[1..]| && Steps(t1, failing, plan[1..]).calls == t1.calls + plan[1..][..n]
          && (Steps(t1, failing, plan[1..]).ok ==> n == |plan[1..]|);
        assert t.calls + [plan[0]] + plan[1..][..n] == t.calls + plan[..n + 1];
      } else {
        StepsFailed(t1, failing, plan[1..]);
        assert t1.calls == t.calls + plan[..1];
      }
    }
  }

  /** After a failure a run changes nothing more. */
  lemma {:induction false} StepsFailed(t: Trace, failing: set<Call>, plan: seq<Call>)
    requires !t.ok
    ensures Steps(t, failing, plan) == t
    decreases |plan|
  {
    if plan != [] {
      StepsFailed(Step(t, failing, plan[0]), failing, plan[1..]);
    }
  }

  /** When the first call of a plan fails, it is the only call made and the
      server is left as that call's failure leaves it: nothing is published
      after a failed transform. */
  lemma FirstFailureStopsRun(t: Trace, failing: set<Call>, plan: seq<Call>)
    requires t.ok && |plan| > 0 && plan[0] in failing
    ensures Steps(t, failing, plan) == Trace(Failed(t.server, plan[0]), t.calls + [plan[0]], false)
  {
    StepsFailed(Step(t, failing, plan[0]), failing, plan[1..]);
  }

  /** The backend the workflows drive. */
  class Backend {
    var server: Server
    ghost var log: seq<Call>
    const failing: set<Call>

    constructor(initial: Server, failing: set<Call>)
      ensures server == initial && log == [] && this.failing == failing
    {
      server := initial;
      log := [];
      this.failing := failing;
    }

    /** Makes one call. */
    method Send(c: Call) returns (ok: bool)
      modifies this
      ensures Trace(server, log, ok) == Step(Trace(old(server), old(log), true), failing, c)
    {
      log := log + [c];
      if Fails(server, failing, c) {
        server := Failed(server, c);
        return false;
      }
      server := Effect(server, c);
      return true;
    }

    /** Makes the calls of a plan in order, stopping at the first failure. */
    method RunPlan(plan: seq<Call>) returns (ok: bool)
      modifies this
      ensures Trace(server, log, ok) == Steps(Trace(old(server), old(log), true), failing, plan)
    {
      ok := true;
      var i := 0;
      while i < |plan| && ok
        invariant 0 <= i <= |plan|
        invariant Trace(server, log, ok) == Steps(Trace(old(server), old(log), true), failing, plan[..i])
      {
        StepsAppend(Trace(old(server), old(log), true), failing, plan[..i], plan[i]);
        assert plan[..i + 1] == plan[..i] + [plan[i]];
        ok := Send(plan[i]);
        i := i + 1;
      }
      if !ok {
        StepsFailed(Trace(server, log, ok), failing, plan[i..]);
        StepsSplit(Trace(old(server), old(log), true), failing, plan[..i], plan[i..]);
        assert plan[..i] + plan[i..] == plan;
      } else {
        assert plan[..i] == plan;
      }
    }

    /** `getLayersFromWorkspace`: GeoServer answers a workspace without
        layers with no list at all, which the source returns as `undefined`
        (`None` here). */
    method FetchLayers(ws: string) returns (r: Outcome<Option<seq<string>>>)
      modifies this
      ensures Trace(server, log, r.Returned?) == Step(Trace(old(server), old(log), true), failing, GetLayers(ws))
      ensures r.Returned? ==> r.value == LayerList(server, ws)
    {
      var ok := Send(GetLayers(ws));
      if !ok {
        return Threw;
      }
      return Returned(LayerList(server, ws));
    }

    /** `getWorkspaces`: the names of every workspace, each once. */
    method FetchWorkspaces() returns (r: Outcome<seq<string>>)
      modifies this
      ensures Trace(server, log, r.Returned?) == Step(Trace(old(server), old(log), true), failing, GetWorkspaces)
      ensures r.Returned? ==> (set w | w in r.value) == server.workspaces.Keys
      ensures r.Returned? ==> forall i, j :: 0 <= i < j < |r.value| ==> r.value[i] != r.value[j]
    {
      var ok := Send(GetWorkspaces);
      if !ok {
        return Threw;
      }
      var todo := server.workspaces.Keys;
      var names := [];
      while todo != {}
        invariant todo <= server.workspaces.Keys
        invariant (set w | w in names) == server.workspaces.Keys - todo
        invariant forall i, j :: 0 <= i < j < |names| ==> names[i] != names[j]
        decreases todo
      {
        var w :| w in todo;
        assert w !in names;
        ghost var before := set x | x in names;
        names := names + [w];
        assert (set x | x in names) == before + {w};
        todo := todo - {w};
      }
      return Returned(names);
    }
  }

  lemma {:induction false} StepsSplit(t: Trace, failing: set<Call>, a: seq<Call>, b: seq<Call>)
    ensures Steps(t, failing, a + b) == Steps(Steps(t, failing, a), failing, b)
    decreases |a|
  {
    if a == [] {
      assert a + b == b;
    } else {
      assert (a + b)[1..] == a[1..] + b;
      StepsSplit(Step(t, failing, a[0]), failing, a[1..], b);
    }
  }

  /** The layer list GeoServer reports for an existing workspace. */
  function LayerList(s: Server, ws: string): (r: Option<seq<string>>)
    requires ws in s.workspaces
    ensures r.None? <==> s.workspaces[ws] == []
    ensures r.Some? ==> r.value == s.workspaces[ws]
  {
    if s.workspaces[ws] == [] then None else Some(s.workspaces[ws])
  }
}
