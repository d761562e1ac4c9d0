/**
 * The `NetworkD3` component: it keeps the figure it was last given, the live
 * node and link arrays the force simulation works on, and the simulation
 * parameters it sets (`alpha`, `alphaTarget`, the repulsion's `distanceMax`).
 */
module Network {
  import opened Wrappers
  import opened Js
  import opened NetworkData
  import ShallowDiff

  const DRAGALPHA: real := 0.3
  const DIST_MULTIPLIER: real := 1.0
  const DIST_EXTRA: real := 0.0
  const MAXREPULSIONLENGTH: real := 0.25
  /** The simulation temperature every change restarts from. */
  const RESTART_ALPHA: real := 0.5

  // The defaults `dflts`.
  const DEFAULT_WIDTH: real := 500.0
  const DEFAULT_HEIGHT: real := 500.0
  const DEFAULT_LINK_WIDTH: real := 4.0
  const DEFAULT_MAX_LINK_WIDTH: real := 20.0
  const DEFAULT_NODE_RADIUS: real := 10.0
  const DEFAULT_MAX_RADIUS: real := 20.0

  /** `{nodes, links}`: node objects are passed by reference, links by value. */
  datatype GraphData = GraphData(nodes: seq<Particle>, links: seq<LinkSpec>)

  /** A `dataVersion`: absent, a number or a string. */
  datatype Token = NoToken | TokNum(n: real) | TokStr(s: string)

  /** The argument of `update`: every size field may be missing. */
  datatype Props = Props(
    width: Option<real>, height: Option<real>,
    linkWidth: Option<real>, maxLinkWidth: Option<real>,
    nodeRadius: Option<real>, maxRadius: Option<real>,
    data: GraphData, dataVersion: Token)

  /** The figure `update` stores, with every size field filled. */
  datatype Figure = Figure(
    width: real, height: real,
    linkWidth: real, maxLinkWidth: real,
    nodeRadius: real, maxRadius: real,
    data: GraphData, dataVersion: Token)

  /** Each missing or zero field takes its default, on every call. */
  function FillDefaults(p: Props): Figure {
    Figure(
      Or(p.width, DEFAULT_WIDTH), Or(p.height, DEFAULT_HEIGHT),
      Or(p.linkWidth, DEFAULT_LINK_WIDTH), Or(p.maxLinkWidth, DEFAULT_MAX_LINK_WIDTH),
      Or(p.nodeRadius, DEFAULT_NODE_RADIUS), Or(p.maxRadius, DEFAULT_MAX_RADIUS),
      p.data, p.dataVersion)
  }

  /**
   * Each size field of the filled figure is the supplied value when that is
   * truthy and the default otherwise; so no filled field is falsy.
   */
  lemma DefaultsFilled(p: Props)
    ensures var f := FillDefaults(p);
      && f.width == (if p.width.Some? && p.width.value != 0.0 then p.width.value else 500.0)
      && f.height == (if p.height.Some? && p.height.value != 0.0 then p.height.value else 500.0)
      && f.linkWidth == (if p.linkWidth.Some? && p.linkWidth.value != 0.0 then p.linkWidth.value else 4.0)
      && f.maxLinkWidth == (if p.maxLinkWidth.Some? && p.maxLinkWidth.value != 0.0 then p.maxLinkWidth.value else 20.0)
      && f.nodeRadius == (if p.nodeRadius.Some? && p.nodeRadius.value != 0.0 then p.nodeRadius.value else 10.0)
      && f.maxRadius == (if p.maxRadius.Some? && p.maxRadius.value != 0.0 then p.maxRadius.value else 20.0)
      && f.data == p.data && f.dataVersion == p.dataVersion
    ensures var f := FillDefaults(p);
      f.width != 0.0 && f.height != 0.0 && f.linkWidth != 0.0 &&
      f.maxLinkWidth != 0.0 && f.nodeRadius != 0.0 && f.maxRadius != 0.0
  {
  }

  /** The figure as props again: every field given. */
  function AsProps(f: Figure): Props {
    Props(Some(f.width), Some(f.height), Some(f.linkWidth), Some(f.maxLinkWidth),
          Some(f.nodeRadius), Some(f.maxRadius), f.data, f.dataVersion)
  }

  /** Filling is idempotent: passing a filled figure back in gives the same figure. */
  lemma RefillUnchanged(p: Props)
    ensures FillDefaults(AsProps(FillDefaults(p))) == FillDefaults(p)
  {
    DefaultsFilled(p);
  }

  function TokenJson(t: Token): Json {
    match t
    case NoToken => Undefined
    case TokNum(n) => Num(n)
    case TokStr(s) => Str(s)
  }

  /** The JSON image of the data object, read from the node objects as they are now. */
  function DataJson(g: GraphData): Json
    reads g.nodes
  {
    Graph(seq(|g.nodes|, i requires 0 <= i < |g.nodes| reads g.nodes => g.nodes[i].Snapshot()), g.links)
  }

  function FigureNodes(f: Option<Figure>): seq<Particle> {
    if f.Some? then f.value.data.nodes else []
  }

  /** The figure as the key/value object `diff` walks; `None` is the initial `{}`. */
  function AsObject(f: Option<Figure>): map<string, Json>
    reads FigureNodes(f)
  {
    match f
    case None => map[]
    case Some(g) =>
      map["width" := Num(g.width), "height" := Num(g.height),
          "linkWidth" := Num(g.linkWidth), "maxLinkWidth" := Num(g.maxLinkWidth),
          "nodeRadius" := Num(g.nodeRadius), "maxRadius" := Num(g.maxRadius),
          "data" := DataJson(g.data), "dataVersion" := TokenJson(g.dataVersion)]
  }

  // Change classification of `update`.
  predicate SizeChange(c: set<string>) { "width" in c || "height" in c }
  predicate DataChange(c: set<string>) { "data" in c }
  predicate LinkWidthChange(c: set<string>) { "linkWidth" in c || "maxLinkWidth" in c }
  /** Only `nodeRadius` is consulted: a change of `maxRadius` alone does not rescale nodes. */
  predicate RadiusChange(c: set<string>) { "nodeRadius" in c }

  function Min(a: real, b: real): real {
    if a < b then a else b
  }

  /** Which keys of the figure `diff` reports, one flag per key. */
  datatype Changes = Changes(
    width: bool, height: bool, linkWidth: bool, maxLinkWidth: bool,
    nodeRadius: bool, maxRadius: bool, data: bool)
  {
    predicate Any() { width || height || linkWidth || maxLinkWidth || nodeRadius || maxRadius || data }
    /** The repulsion's range follows the size. */
    predicate Resized() { width || height }
    /** Link widths are recomputed on new data or new width settings. */
    predicate Rewidened() { data || linkWidth || maxLinkWidth }
    /** Node sizes are recomputed on new data or a new `nodeRadius`. */
    predicate Rescaled() { data || nodeRadius }
  }

  /** The keys `diff` can report for a figure: every key but `dataVersion`. */
  const FIELD_KEYS: set<string> := {"width", "height", "linkWidth", "maxLinkWidth", "nodeRadius", "maxRadius", "data"}

  /** `keys` is the report of the comparison `ch`: exactly the keys it flags. */
  predicate Reports(keys: set<string>, ch: Changes) {
    && keys <= FIELD_KEYS
    && ("width" in keys) == ch.width && ("height" in keys) == ch.height
    && ("linkWidth" in keys) == ch.linkWidth && ("maxLinkWidth" in keys) == ch.maxLinkWidth
    && ("nodeRadius" in keys) == ch.nodeRadius && ("maxRadius" in keys) == ch.maxRadius
    && ("data" in keys) == ch.data
  }

  /** A report is empty exactly when nothing differs. */
  lemma EmptyReport(keys: set<string>, ch: Changes)
    requires Reports(keys, ch)
    ensures keys == {} <==> !ch.Any()
  {
    if !ch.Any() {
      assert forall k | k in FIELD_KEYS :: k !in keys;
    }
  }

  /** A report in which everything differs holds every field key. */
  lemma FullReport(keys: set<string>, ch: Changes)
    requires Reports(keys, ch)
    requires ch.width && ch.height && ch.linkWidth && ch.maxLinkWidth && ch.nodeRadius && ch.maxRadius && ch.data
    ensures keys == FIELD_KEYS
  {
    assert forall k | k in FIELD_KEYS :: k in keys;
  }

  /**
   * Whether `data` counts as changed: with a truthy `dataVersion` the tokens
   * decide, otherwise the JSON images of the two data objects as they are now.
   */
  function DataDiffers(g: Figure, f: Figure): bool
    reads g.data.nodes, f.data.nodes
  {
    if Truthy(TokenJson(f.dataVersion)) then TokenJson(f.dataVersion) != TokenJson(g.dataVersion)
    else DataJson(g.data) != DataJson(f.data)
  }

  /** The comparison `diff` makes, field by field; from the empty figure everything differs. */
  function FigureChanges(o: Option<Figure>, f: Figure): Changes
    reads FigureNodes(o), f.data.nodes
  {
    match o
    case None => Changes(true, true, true, true, true, true, true)
    case Some(g) =>
      Changes(g.width != f.width, g.height != f.height, g.linkWidth != f.linkWidth,
              g.maxLinkWidth != f.maxLinkWidth, g.nodeRadius != f.nodeRadius,
              g.maxRadius != f.maxRadius, DataDiffers(g, f))
  }

  /** The keys of a figure object are pairwise different. */
  lemma FigureKeysDistinct()
    ensures "width" != "height" && "width" != "linkWidth" && "width" != "maxLinkWidth" && "width" != "nodeRadius"
    ensures "width" != "maxRadius" && "width" != "data" && "width" != "dataVersion"
    ensures "height" != "linkWidth" && "height" != "maxLinkWidth" && "height" != "nodeRadius"
    ensures "height" != "maxRadius" && "height" != "data" && "height" != "dataVersion"
    ensures "linkWidth" != "maxLinkWidth" && "linkWidth" != "nodeRadius" && "linkWidth" != "maxRadius"
    ensures "linkWidth" != "data" && "linkWidth" != "dataVersion"
    ensures "maxLinkWidth" != "nodeRadius" && "maxLinkWidth" != "maxRadius" && "maxLinkWidth" != "data"
    ensures "maxLinkWidth" != "dataVersion"
    ensures "nodeRadius" != "maxRadius" && "nodeRadius" != "data" && "nodeRadius" != "dataVersion"
    ensures "maxRadius" != "data" && "maxRadius" != "dataVersion" && "data" != "dataVersion"
  {
  }

  /** The entries of a figure object. */
  lemma FigureEntries(f: Figure)
    ensures AsObject(Some(f)).Keys == FIELD_KEYS + {"dataVersion"}
    ensures AsObject(Some(f))["width"] == Num(f.width) && AsObject(Some(f))["height"] == Num(f.height)
    ensures AsObject(Some(f))["linkWidth"] == Num(f.linkWidth) && AsObject(Some(f))["maxLinkWidth"] == Num(f.maxLinkWidth)
    ensures AsObject(Some(f))["nodeRadius"] == Num(f.nodeRadius) && AsObject(Some(f))["maxRadius"] == Num(f.maxRadius)
    ensures AsObject(Some(f))["data"] == DataJson(f.data)
    ensures AsObject(Some(f))["dataVersion"] == TokenJson(f.dataVersion)
  {
    FigureKeysDistinct();
  }

  /** Only `dataVersion` among the figure keys ends in "Version". */
  lemma KeyEndings()
    ensures EndsWith("dataVersion", ShallowDiff.V)
    ensures !EndsWith("width", ShallowDiff.V) && !EndsWith("height", ShallowDiff.V)
    ensures !EndsWith("linkWidth", ShallowDiff.V) && !EndsWith("maxLinkWidth", ShallowDiff.V)
    ensures !EndsWith("nodeRadius", ShallowDiff.V) && !EndsWith("maxRadius", ShallowDiff.V)
    ensures !EndsWith("data", ShallowDiff.V)
  {
    assert "dataVersion"[4..] == ShallowDiff.V;
  }

  /** A number-valued key is reported exactly when the old object lacks it or holds another value. */
  lemma NumberKeyReported(a: map<string, Json>, b: map<string, Json>, k: string)
    requires k in b && b[k].Num? && !EndsWith(k, ShallowDiff.V)
    ensures k in ShallowDiff.ChangedKeys(a, b) <==> ShallowDiff.Get(a, k) != b[k]
  {
    ShallowDiff.OtherKeysConsidered(a, b, k);
  }

  /** `data` is reported exactly when there was no figure or `DataDiffers` says so. */
  lemma DataKeyReported(o: Option<Figure>, f: Figure)
    ensures "data" in ShallowDiff.ChangedKeys(AsObject(o), AsObject(Some(f))) <==> FigureChanges(o, f).data
  {
    var a, b := AsObject(o), AsObject(Some(f));
    FigureEntries(f);
    KeyEndings();
    if o.Some? {
      FigureEntries(o.value);
    }
    assert "data" + ShallowDiff.V == "dataVersion";
    if Truthy(TokenJson(f.dataVersion)) {
      ShallowDiff.TokenDecides(a, b, "data");
    } else {
      ShallowDiff.StructuralFallback(a, b, "data");
    }
  }

  /** `diff` on two figures reports exactly the fields that differ. */
  lemma DiffOfFigures(o: Option<Figure>, f: Figure)
    ensures Reports(ShallowDiff.ChangedKeys(AsObject(o), AsObject(Some(f))), FigureChanges(o, f))
  {
    var a, b := AsObject(o), AsObject(Some(f));
    FigureEntries(f);
    KeyEndings();
    if o.Some? {
      FigureEntries(o.value);
    }
    NumberKeyReported(a, b, "width");
    NumberKeyReported(a, b, "height");
    NumberKeyReported(a, b, "linkWidth");
    NumberKeyReported(a, b, "maxLinkWidth");
    NumberKeyReported(a, b, "nodeRadius");
    NumberKeyReported(a, b, "maxRadius");
    DataKeyReported(o, f);
    ShallowDiff.VersionKeysNeverReported(a, b, "dataVersion");
  }

  /** A call of `diff` on two figures, whose field-by-field comparison is `pending`. */
  method DiffFigures(oldFigure: Option<Figure>, newFigure: Figure, ghost pending: Changes) returns (change: Option<set<string>>)
    requires pending == FigureChanges(oldFigure, newFigure)
    ensures change.None? <==> !pending.Any()
    ensures change.Some? ==> Reports(change.value, pending)
  {
    DiffOfFigures(oldFigure, newFigure);
    EmptyReport(ShallowDiff.ChangedKeys(AsObject(oldFigure), AsObject(Some(newFigure))), pending);
    change := ShallowDiff.Diff(AsObject(oldFigure), AsObject(Some(newFigure)));
  }

  /** The first `update`, from the empty figure, reports every non-version key. */
  lemma FirstUpdateReportsEverything(f: Figure)
    ensures ShallowDiff.ChangedKeys(AsObject(None), AsObject(Some(f))) == FIELD_KEYS
  {
    DiffOfFigures(None, f);
    FullReport(ShallowDiff.ChangedKeys(AsObject(None), AsObject(Some(f))), FigureChanges(None, f));
  }

  /** Updating with the figure already stored reports no change. */
  lemma SameFigureNoChange(f: Figure)
    ensures ShallowDiff.ChangedKeys(AsObject(Some(f)), AsObject(Some(f))) == {}
  {
    ShallowDiff.DiffOfSelfIsFalse(AsObject(Some(f)));
  }

  /**
   * With an unchanged truthy `dataVersion`, `data` is not reported, however
   * its contents differ; with a different truthy one it is, however alike they are.
   */
  lemma VersionTokenDecidesData(f1: Figure, f2: Figure)
    requires Truthy(TokenJson(f2.dataVersion))
    ensures "data" in ShallowDiff.ChangedKeys(AsObject(Some(f1)), AsObject(Some(f2))) <==>
      f1.dataVersion != f2.dataVersion
  {
    assert "data" + ShallowDiff.V == "dataVersion";
    ShallowDiff.TokenDecides(AsObject(Some(f1)), AsObject(Some(f2)), "data");
  }

  /** Every node of `ps` carries the attributes of the input node with its id. */
  ghost predicate Carries(ps: seq<Particle>, input: seq<Particle>)
    reads ps, input
  {
    forall i, k | 0 <= i < |ps| && 0 <= k < |input| && ps[i].id == input[k].id :: Attrs(ps[i]) == Attrs(input[k])
  }

  /** No node of `ps` has a different `radius` or `color` than in the pre-state. */
  twostate predicate AttrsUnchanged(ps: seq<Particle>)
    reads ps
  {
    forall k | 0 <= k < |ps| :: Attrs(ps[k]) == old(Attrs(ps[k]))
  }

  /** The nodes of `ps` whose id is not in `ids` keep their attributes and their size. */
  twostate predicate UntouchedOutside(ps: seq<Particle>, ids: set<string>)
    reads ps
  {
    forall p | p in ps && p.id !in ids :: p.radius == old(p.radius) && p.color == old(p.color) && p.r == old(p.r)
  }

  /**
   * `p` is written by `update` only as a live node: unless it was live before
   * it keeps its attributes, and unless it is live after it keeps its size.
   */
  twostate predicate NotLiveUntouched(p: Particle, before: seq<Particle>, new after: seq<Particle>)
    reads p
  {
    && (p !in before ==> p.radius == old(p.radius) && p.color == old(p.color))
    && (p !in after ==> p.r == old(p.r))
  }

  /**
   * The state of the merge pass after the first j input nodes: the live list
   * is the old one followed by the unseen input nodes so far, and the id map
   * indexes it.
   */
  ghost predicate MergedIds(ps: seq<Particle>, m: map<string, Particle>, seen: set<string>,
                            before: seq<Particle>, input: seq<Particle>, j: nat)
  {
    && j <= |input| && DistinctIds(input)
    && seen == IdSet(input[..j])
    && ps == before + Filter(input[..j], IdSet(before), false)
    && DistinctIds(ps) && MapsIds(m, ps)
  }

  /**
   * The attributes during the merge pass: every live node whose id has been
   * seen carries that input node's attributes, and input nodes and old nodes
   * not yet seen keep theirs.
   */
  ghost predicate MergedAttrs(ps: seq<Particle>, seen: set<string>, before: seq<Particle>, input: seq<Particle>, j: nat,
                              attrs: seq<Attributes>, kept: seq<Attributes>)
    reads ps, before, input
  {
    && j <= |input| && |attrs| == |input| && |kept| == |before|
    && (forall i, k | 0 <= i < |ps| && 0 <= k < j && ps[i].id == input[k].id :: Attrs(ps[i]) == attrs[k])
    && (forall k | 0 <= k < |input| :: Attrs(input[k]) == attrs[k])
    && (forall i | 0 <= i < |before| && before[i].id !in seen :: Attrs(before[i]) == kept[i])
  }

  /** A known id is found at one old position, and no other live node or other input node has it. */
  lemma RefreshIds(ps: seq<Particle>, m: map<string, Particle>, seen: set<string>,
                   before: seq<Particle>, input: seq<Particle>, j: nat) returns (e: nat)
    requires MergedIds(ps, m, seen, before, input, j) && j < |input| && input[j].id in m
    ensures MergedIds(ps, m, seen + {input[j].id}, before, input, j + 1)
    ensures e < |before| && e < |ps| && ps[e] == m[input[j].id] && before[e] == ps[e]
    ensures forall i | 0 <= i < |ps| && i != e :: ps[i].id != input[j].id
    ensures forall k | 0 <= k < |input| && k != j :: input[k].id != input[j].id
  {
    var oldIds := IdSet(before);
    var newNode := input[j];
    var existing := m[newNode.id];
    AppendedIdsAreNew(before, input, j, oldIds, existing);
    e :| 0 <= e < |before| && before[e] == existing;
    assert ps[e] == before[e];
    FilterPrefixStep(input, j, oldIds, false);
    IdSetAppend(input[..j], newNode);
    assert input[..j + 1] == input[..j] + [newNode];
  }

  /** An unseen id is new to the live list, which then grows by that node. */
  lemma AppendIds(ps: seq<Particle>, m: map<string, Particle>, seen: set<string>,
                  before: seq<Particle>, input: seq<Particle>, j: nat)
    requires MergedIds(ps, m, seen, before, input, j) && j < |input| && input[j].id !in m
    ensures MergedIds(ps + [input[j]], m[input[j].id := input[j]], seen + {input[j].id}, before, input, j + 1)
    ensures forall i | 0 <= i < |ps| :: ps[i].id != input[j].id
    ensures forall k | 0 <= k < |input| && k != j :: input[k].id != input[j].id
  {
    AppendLayout(ps, before, input, j);
    MapsIdsAppend(m, ps, input[j]);
    IdSetAppend(input[..j], input[j]);
    assert input[..j + 1] == input[..j] + [input[j]];
  }

  /** Appending an input node whose id is not live extends the layout of the merge pass. */
  lemma AppendLayout(ps: seq<Particle>, before: seq<Particle>, input: seq<Particle>, j: nat)
    requires j < |input| && ps == before + Filter(input[..j], IdSet(before), false)
    requires input[j].id !in IdSet(ps)
    ensures ps + [input[j]] == before + Filter(input[..j + 1], IdSet(before), false)
  {
    var oldIds := IdSet(before);
    assert input[j].id !in oldIds by {
      IdSetOfConcat(before, Filter(input[..j], oldIds, false));
    }
    FilterPrefixStep(input, j, oldIds, false);
  }

  /**
   * Every link names two ids of the node list: the documented input contract
   * of the component, without which d3's link force throws.
   */
  predicate LinksNameNodes(links: seq<LinkSpec>, nodes: seq<Particle>) {
    forall i | 0 <= i < |links| :: links[i].source in IdSet(nodes) && links[i].target in IdSet(nodes)
  }

  /** Every link entry has both endpoints resolved to a node. */
  predicate LinksResolved(links: seq<Link>) {
    forall i | 0 <= i < |links| :: links[i].source.Some? && links[i].target.Some?
  }

  /** Every node of `ps` has the size derived for `maxRadius` and `nodeRadius` over the whole list. */
  ghost predicate Sized(ps: seq<Particle>, maxRadius: real, nodeRadius: real)
    reads ps
  {
    forall i | 0 <= i < |ps| :: ps[i].r == Some(Scaled(ps[i].radius, maxRadius, ScaleOf(Radii(ps)), nodeRadius))
  }

  /** Every resolved link endpoint is one of the live nodes. */
  predicate EndpointsLive(links: seq<Link>, ps: seq<Particle>) {
    forall i | 0 <= i < |links| ::
      (links[i].source.Some? ==> links[i].source.value in ps) &&
      (links[i].target.Some? ==> links[i].target.value in ps)
  }

  class NetworkD3 {
    /** `self.figure`: `None` until the first `update`. */
    var figure: Option<Figure>
    var nodeData: seq<Particle>
    var linkData: seq<Link>
    /** The `width` attribute given to each drawn link, one per link entry. */
    var linkWidths: seq<real>
    var alpha: real
    var alphaTarget: real
    /** The repulsion's maximum distance; `None` is the simulation's unbounded default. */
    var distanceMax: Option<real>

    ghost predicate Valid()
      reads this`nodeData, this`linkData, this`linkWidths, nodeData
    {
      && DistinctIds(nodeData)
      && EndpointsLive(linkData, nodeData) && LinksResolved(linkData)
      && |linkWidths| == |linkData|
      && (forall p | p in nodeData :: p.r.Some?)
    }

    /** What `diff` would find changed for `update(props)` in the current state. */
    ghost function PendingChanges(props: Props): Changes
      reads this, FigureNodes(figure), props.data.nodes
    {
      FigureChanges(figure, FillDefaults(props))
    }

    /**
     * `new NetworkD3(el, figure, onClick)`: the empty figure and arrays, then
     * a first `update`, which takes every node and link of the figure.
     */
    constructor (props: Props)
      requires DistinctIds(props.data.nodes) && LinksNameNodes(props.data.links, props.data.nodes)
      modifies props.data.nodes
      ensures Valid()
      ensures figure == Some(FillDefaults(props))
      ensures nodeData == props.data.nodes
      ensures |linkData| == |props.data.links|
      ensures forall i | 0 <= i < |props.data.links| ::
        linkData[i] == Link(Find(nodeData, props.data.links[i].source), Find(nodeData, props.data.links[i].target), i)
      ensures Sized(nodeData, FillDefaults(props).maxRadius, FillDefaults(props).nodeRadius)
      ensures |linkWidths| == |linkData| && forall i | 0 <= i < |linkWidths| :: linkWidths[i] == FillDefaults(props).linkWidth
      ensures AttrsUnchanged(props.data.nodes)
      ensures alpha == RESTART_ALPHA && alphaTarget == 0.0
      ensures distanceMax == Some(Min(FillDefaults(props).width, FillDefaults(props).height) * MAXREPULSIONLENGTH)
    {
      figure := None;
      nodeData, linkData, linkWidths := [], [], [];
      alpha, alphaTarget, distanceMax := 1.0, 0.0, None;
      new;
      assert IdSet([]) == {};
      FilterNoneOut(props.data.nodes);
      assert Reconciled([], props.data.nodes) == props.data.nodes;
      assert PendingChanges(props).data;
      Update(props);
    }

    /**
     * `update(figure)`: store the filled figure, and when `diff` reports a
     * change, bring the node and link arrays, the derived sizes and the
     * simulation parameters up to date and restart the simulation.
     */
    method Update(props: Props)
      requires Valid()
      requires DistinctIds(props.data.nodes) && LinksNameNodes(props.data.links, props.data.nodes)
      modifies this, nodeData, props.data.nodes
      ensures Valid()
      ensures figure == Some(FillDefaults(props))
      ensures alphaTarget == old(alphaTarget)
      ensures forall p: Particle | old(allocated(p)) ::
        && p.x == old(p.x) && p.y == old(p.y) && p.vx == old(p.vx) && p.vy == old(p.vy) && p.fx == old(p.fx) && p.fy == old(p.fy)
        // caller objects that are not live are never written
        && (p !in old(nodeData) ==> p.radius == old(p.radius) && p.color == old(p.color))
        && (p !in nodeData ==> p.r == old(p.r))
      ensures AttrsUnchanged(props.data.nodes)
      // an unchanged figure is a no-op
      ensures !old(PendingChanges(props)).Any() ==>
        && nodeData == old(nodeData) && linkData == old(linkData) && linkWidths == old(linkWidths)
        && alpha == old(alpha) && distanceMax == old(distanceMax)
        && forall p | p in old(nodeData) || p in props.data.nodes :: unchanged(p)
      ensures old(PendingChanges(props)).Any() ==> alpha == RESTART_ALPHA
      ensures distanceMax == if old(PendingChanges(props)).Resized()
        then Some(Min(FillDefaults(props).width, FillDefaults(props).height) * MAXREPULSIONLENGTH)
        else old(distanceMax)
      // node and link reconciliation
      ensures old(PendingChanges(props)).data ==>
        && nodeData == Reconciled(old(nodeData), props.data.nodes)
        && IdSet(nodeData) == IdSet(props.data.nodes)
        && Carries(nodeData, props.data.nodes)
        && |linkData| == |props.data.links|
      ensures old(PendingChanges(props)).data ==> forall i | 0 <= i < |props.data.links| ::
        linkData[i] == Link(Find(nodeData, props.data.links[i].source), Find(nodeData, props.data.links[i].target), i)
      ensures old(PendingChanges(props)).data ==> UntouchedOutside(old(nodeData), IdSet(props.data.nodes))
      ensures !old(PendingChanges(props)).data ==>
        && nodeData == old(nodeData) && linkData == old(linkData)
        && forall p | p in old(nodeData) :: p.radius == old(p.radius) && p.color == old(p.color)
      // derived sizes
      ensures old(PendingChanges(props)).Rescaled() ==>
        forall i | 0 <= i < |nodeData| ::
          nodeData[i].r == Some(Scaled(nodeData[i].radius, FillDefaults(props).maxRadius, ScaleOf(Radii(nodeData)), FillDefaults(props).nodeRadius))
      ensures !old(PendingChanges(props)).Rescaled() ==> forall p | p in old(nodeData) :: p.r == old(p.r)
      ensures old(PendingChanges(props)).Rewidened() ==>
        forall i | 0 <= i < |linkWidths| :: linkWidths[i] == FillDefaults(props).linkWidth
      ensures !old(PendingChanges(props)).Rewidened() ==> linkWidths == old(linkWidths)
    {
      ghost var pending := PendingChanges(props);
      var oldFigure := figure;
      var newFigure := FillDefaults(props);
      var change := DiffFigures(oldFigure, newFigure, pending);
      figure := Some(newFigure);
      if change.None? {
        return;
      }
      label applying:
      ApplyChange(change.value, newFigure);
      forall p: Particle | old(allocated(p))
        ensures && p.x == old(p.x) && p.y == old(p.y) && p.vx == old(p.vx) && p.vy == old(p.vy) && p.fx == old(p.fx) && p.fy == old(p.fy)
                && (p !in old(nodeData) ==> p.radius == old(p.radius) && p.color == old(p.color))
                && (p !in nodeData ==> p.r == old(p.r))
      {
        assert MotionUnchanged@applying(p) && NotLiveUntouched@applying(p, old(nodeData), nodeData);
      }
    }

    /**
     * The part of `update` after `diff` reported the keys `c`: each kind of
     * change refreshes what depends on it, and the simulation restarts.
     */
    method ApplyChange(c: set<string>, f: Figure)
      requires Valid() && DistinctIds(f.data.nodes) && LinksNameNodes(f.data.links, f.data.nodes)
      modifies this`nodeData, this`linkData, this`linkWidths, this`alpha, this`distanceMax, nodeData, f.data.nodes
      ensures Valid()
      ensures forall p: Particle | old(allocated(p)) :: MotionUnchanged(p) && NotLiveUntouched(p, old(nodeData), nodeData)
      ensures AttrsUnchanged(f.data.nodes)
      ensures alpha == RESTART_ALPHA
      ensures distanceMax == if SizeChange(c) then Some(Min(f.width, f.height) * MAXREPULSIONLENGTH) else old(distanceMax)
      ensures DataChange(c) ==>
        && nodeData == Reconciled(old(nodeData), f.data.nodes)
        && IdSet(nodeData) == IdSet(f.data.nodes)
        && Carries(nodeData, f.data.nodes)
        && |linkData| == |f.data.links|
        && (forall i | 0 <= i < |f.data.links| ::
              linkData[i] == Link(Find(nodeData, f.data.links[i].source), Find(nodeData, f.data.links[i].target), i))
      ensures DataChange(c) ==> UntouchedOutside(old(nodeData), IdSet(f.data.nodes))
      ensures !DataChange(c) ==>
        && nodeData == old(nodeData) && linkData == old(linkData)
        && forall p | p in old(nodeData) :: p.radius == old(p.radius) && p.color == old(p.color)
      ensures DataChange(c) || RadiusChange(c) ==>
        forall i | 0 <= i < |nodeData| ::
          nodeData[i].r == Some(Scaled(nodeData[i].radius, f.maxRadius, ScaleOf(Radii(nodeData)), f.nodeRadius))
      ensures !(DataChange(c) || RadiusChange(c)) ==> forall p | p in old(nodeData) :: p.r == old(p.r)
      ensures DataChange(c) || LinkWidthChange(c) ==> forall i | 0 <= i < |linkWidths| :: linkWidths[i] == f.linkWidth
      ensures !(DataChange(c) || LinkWidthChange(c)) ==> linkWidths == old(linkWidths)
    {
      var sizeChange := SizeChange(c);
      var dataChange := DataChange(c);
      var linkWidthChange := LinkWidthChange(c);
      var radiusChange := RadiusChange(c);
      if dataChange {
        RefreshAll(sizeChange, f);
      } else {
        Rederive(linkWidthChange, radiusChange, sizeChange, f);
      }
    }

    /**
     * `update` on new data: reconcile nodes and links, then derive every
     * size again and restart.
     */
    method RefreshAll(resized: bool, f: Figure)
      requires Valid() && DistinctIds(f.data.nodes) && LinksNameNodes(f.data.links, f.data.nodes)
      modifies this`nodeData, this`linkData, this`linkWidths, this`alpha, this`distanceMax, nodeData, f.data.nodes
      ensures Valid()
      ensures forall p: Particle | old(allocated(p)) :: MotionUnchanged(p) && NotLiveUntouched(p, old(nodeData), nodeData)
      ensures alpha == RESTART_ALPHA
      ensures distanceMax == if resized then Some(Min(f.width, f.height) * MAXREPULSIONLENGTH) else old(distanceMax)
      ensures nodeData == Reconciled(old(nodeData), f.data.nodes)
      ensures IdSet(nodeData) == IdSet(f.data.nodes)
      ensures Carries(nodeData, f.data.nodes) && AttrsUnchanged(f.data.nodes)
      ensures |linkData| == |f.data.links|
      ensures forall i | 0 <= i < |f.data.links| ::
        linkData[i] == Link(Find(nodeData, f.data.links[i].source), Find(nodeData, f.data.links[i].target), i)
      ensures forall i | 0 <= i < |nodeData| ::
        nodeData[i].r == Some(Scaled(nodeData[i].radius, f.maxRadius, ScaleOf(Radii(nodeData)), f.nodeRadius))
      ensures forall i | 0 <= i < |linkWidths| :: linkWidths[i] == f.linkWidth
      ensures UntouchedOutside(old(nodeData), IdSet(f.data.nodes))
    {
      RefreshData(f);
      assert forall i | 0 <= i < |nodeData| :: nodeData[i] in old(nodeData) || nodeData[i] in f.data.nodes;
      label rescaling:
      Rederive(true, true, resized, f);
      forall p: Particle | old(allocated(p)) ensures MotionUnchanged(p) && NotLiveUntouched(p, old(nodeData), nodeData) {
        assert old@rescaling(Motion(p)) == old(Motion(p));
        assert MotionUnchanged@rescaling(p);
      }
    }

    /**
     * The tail of `update`: the sizes derived from the figure (link widths
     * when `links`, node sizes when `nodes`, the repulsion's range when
     * `resized`), then the restart of the simulation. Each touches its own
     * state, so the order in which they are applied does not matter; nothing
     * a caller or the simulation owns changes.
     */
    method Rederive(links: bool, nodes: bool, resized: bool, f: Figure)
      requires DistinctIds(nodeData)
      modifies this`linkWidths, this`alpha, this`distanceMax, nodeData
      ensures alpha == RESTART_ALPHA
      ensures distanceMax == if resized then Some(Min(f.width, f.height) * MAXREPULSIONLENGTH) else old(distanceMax)
      ensures nodeData == old(nodeData) && linkData == old(linkData)
      ensures links ==> |linkWidths| == |linkData| && forall i | 0 <= i < |linkWidths| :: linkWidths[i] == f.linkWidth
      ensures !links ==> linkWidths == old(linkWidths)
      ensures nodes ==> forall i | 0 <= i < |nodeData| ::
        nodeData[i].r == Some(Scaled(nodeData[i].radius, f.maxRadius, ScaleOf(Radii(nodeData)), f.nodeRadius))
      ensures !nodes ==> forall p | p in nodeData :: p.r == old(p.r)
      ensures forall p: Particle | old(allocated(p)) :: MotionUnchanged(p) && p.radius == old(p.radius) && p.color == old(p.color)
      ensures forall p: Particle | old(allocated(p)) && p !in nodeData :: p.r == old(p.r)
    {
      if resized {
        distanceMax := Some(Min(f.width, f.height) * MAXREPULSIONLENGTH);
      }
      if links {
        ScaleLinkWidths(f.linkWidth, f.maxLinkWidth);
        forall i | 0 <= i < |linkWidths| ensures linkWidths[i] == f.linkWidth {
          EveryLinkGetsDefaultWidth(linkData, f.maxLinkWidth, f.linkWidth, i);
        }
      }
      if nodes {
        ScaleRadii(f.maxRadius, f.nodeRadius);
      }
      alpha := RESTART_ALPHA;
    }

    /**
     * The data part of `update`: reconcile the live nodes with the new ones,
     * then rebuild the link entries through the resulting id map.
     */
    method RefreshData(f: Figure)
      requires DistinctIds(nodeData) && DistinctIds(f.data.nodes) && LinksNameNodes(f.data.links, f.data.nodes)
      modifies this`nodeData, this`linkData, nodeData
      ensures nodeData == Reconciled(old(nodeData), f.data.nodes)
      ensures DistinctIds(nodeData) && IdSet(nodeData) == IdSet(f.data.nodes)
      ensures forall p | p in nodeData :: p in old(nodeData) || p in f.data.nodes
      ensures Carries(nodeData, f.data.nodes) && AttrsUnchanged(f.data.nodes)
      ensures forall p: Particle | old(allocated(p)) :: Motion(p) == old(Motion(p))
      ensures |linkData| == |f.data.links|
      ensures forall i | 0 <= i < |f.data.links| ::
        linkData[i] == Link(Find(nodeData, f.data.links[i].source), Find(nodeData, f.data.links[i].target), i)
      ensures EndpointsLive(linkData, nodeData) && LinksResolved(linkData)
      ensures UntouchedOutside(old(nodeData), IdSet(f.data.nodes))
      ensures forall p: Particle | old(allocated(p)) && p !in old(nodeData) :: p.radius == old(p.radius) && p.color == old(p.color)
      ensures distanceMax == old(distanceMax) && linkWidths == old(linkWidths)
    {
      var live, nodeMap := ReconcileNodes(nodeData, f.data.nodes);
      nodeData := live;
      RebuildLinks(f.data.links, nodeMap);
      EntriesResolve(nodeData, nodeMap, f.data.links, linkData, f.data.nodes);
    }

    /** Link entry i is rebuilt from data link i through the id map; the tail is cut. */
    method RebuildLinks(links: seq<LinkSpec>, nodeMap: map<string, Particle>)
      modifies this`linkData
      ensures |linkData| == |links|
      ensures forall i | 0 <= i < |links| ::
        linkData[i] == Link(Lookup(nodeMap, links[i].source), Lookup(nodeMap, links[i].target), i)
    {
      var i := 0;
      while i < |links|
        invariant 0 <= i <= |links|
        invariant |linkData| == if i < |old(linkData)| then |old(linkData)| else i
        invariant forall k | 0 <= k < i ::
          linkData[k] == Link(Lookup(nodeMap, links[k].source), Lookup(nodeMap, links[k].target), k)
      {
        var entry := Link(Lookup(nodeMap, links[i].source), Lookup(nodeMap, links[i].target), i);
        if i < |linkData| {
          linkData := linkData[i := entry];
        } else {
          linkData := linkData + [entry];
        }
        i := i + 1;
      }
      var oldLinkCount := |linkData|;
      var newLinkCount := |links|;
      if oldLinkCount > newLinkCount {
        linkData := linkData[..newLinkCount];
      }
    }

    /** Link widths: `(width * maxLinkWidth / maxFoundWidth) || linkWidth` per entry. */
    method ScaleLinkWidths(linkWidth: real, maxLinkWidth: real)
      modifies this`linkWidths
      ensures |linkWidths| == |linkData|
      ensures forall i | 0 <= i < |linkWidths| ::
        linkWidths[i] == Scaled(EntryWidth(linkData[i]), maxLinkWidth, ScaleOf(EntryWidths(linkData)), linkWidth)
    {
      var maxFoundWidth := MaxFound(EntryWidths(linkData));
      maxFoundWidth := Or(Some(maxFoundWidth), 1.0);
      assert maxFoundWidth == ScaleOf(EntryWidths(linkData));
      linkWidths := seq(|linkData|, i requires 0 <= i < |linkData| reads this =>
        Scaled(EntryWidth(linkData[i]), maxLinkWidth, maxFoundWidth, linkWidth));
    }

    /** Node sizes: `_r = (radius * maxRadius / maxFoundRadius) || nodeRadius` per node. */
    method ScaleRadii(maxRadius: real, nodeRadius: real)
      requires DistinctIds(nodeData)
      modifies nodeData
      ensures forall i | 0 <= i < |nodeData| ::
        nodeData[i].r == Some(Scaled(nodeData[i].radius, maxRadius, ScaleOf(Radii(nodeData)), nodeRadius))
      ensures forall p: Particle | old(allocated(p)) :: MotionUnchanged(p) && p.radius == old(p.radius) && p.color == old(p.color)
      ensures forall p: Particle | old(allocated(p)) && p !in nodeData :: p.r == old(p.r)
    {
      ghost var radii := Radii(nodeData);
      var maxFoundRadius := MaxFound(Radii(nodeData));
      maxFoundRadius := Or(Some(maxFoundRadius), 1.0);
      assert maxFoundRadius == ScaleOf(radii);
      for i := 0 to |nodeData|
        invariant forall k | 0 <= k < i :: nodeData[k].r == Some(Scaled(nodeData[k].radius, maxRadius, maxFoundRadius, nodeRadius))
        invariant forall p: Particle | old(allocated(p)) :: MotionUnchanged(p) && p.radius == old(p.radius) && p.color == old(p.color)
      {
        var d := nodeData[i];
        d.r := Some(Scaled(d.radius, maxRadius, maxFoundRadius, nodeRadius));
      }
      assert Radii(nodeData) == radii;
    }

    /** The link force's target distance for entry i, `link.source._r + link.target._r`. */
    function LinkDistance(i: nat): real
      requires Valid() && i < |linkData|
      reads this, nodeData
    {
      DIST_MULTIPLIER * (linkData[i].source.value.r.value + linkData[i].target.value.r.value) + DIST_EXTRA
    }

    /**
     * With the sizes derived for `maxRadius` and `nodeRadius`, as `update`
     * leaves them after new data or a new `nodeRadius`, a link's target
     * distance is the sum of its endpoints' scaled radii. With positive
     * settings and no negative radius it is positive and at most twice the
     * larger setting.
     */
    lemma DistanceOfSized(i: nat, maxRadius: real, nodeRadius: real)
      requires Valid() && i < |linkData| && Sized(nodeData, maxRadius, nodeRadius)
      ensures var s, t, found := linkData[i].source.value, linkData[i].target.value, ScaleOf(Radii(nodeData));
        LinkDistance(i) == Scaled(s.radius, maxRadius, found, nodeRadius) + Scaled(t.radius, maxRadius, found, nodeRadius)
      ensures var s, t := linkData[i].source.value, linkData[i].target.value;
        maxRadius > 0.0 && nodeRadius > 0.0 && OrZero(s.radius) >= 0.0 && OrZero(t.radius) >= 0.0 ==>
        0.0 < LinkDistance(i) <= 2.0 * Max(maxRadius, nodeRadius)
    {
      var s, t := linkData[i].source.value, linkData[i].target.value;
      var vals := Radii(nodeData);
      var j :| 0 <= j < |nodeData| && nodeData[j] == s;
      var k :| 0 <= k < |nodeData| && nodeData[k] == t;
      assert vals[j] == s.radius && vals[k] == t.radius;
      if maxRadius > 0.0 && nodeRadius > 0.0 && OrZero(s.radius) >= 0.0 && OrZero(t.radius) >= 0.0 {
        ScaledPositive(vals, maxRadius, nodeRadius, j);
        ScaledPositive(vals, maxRadius, nodeRadius, k);
      }
    }

    /** Drag start: raise the target temperature unless a drag is active, and pin the node where it is. */
    method DragStarted(d: Particle, active: bool)
      modifies this`alphaTarget, d`fx, d`fy
      ensures alphaTarget == if active then old(alphaTarget) else DRAGALPHA
      ensures d.fx == d.x && d.fy == d.y
    {
      if !active {
        alphaTarget := DRAGALPHA;
      }
      d.fx := d.x;
      d.fy := d.y;
    }

    /** Drag move: the pin follows the cursor. */
    method Dragged(d: Particle, eventX: real, eventY: real)
      modifies d`fx, d`fy
      ensures d.fx == Some(eventX) && d.fy == Some(eventY)
    {
      d.fx := Some(eventX);
      d.fy := Some(eventY);
    }

    /** Drag end: release the target temperature unless another drag is active, and unpin. */
    method DragEnded(d: Particle, active: bool)
      modifies this`alphaTarget, d`fx, d`fy
      ensures alphaTarget == if active then old(alphaTarget) else 0.0
      ensures d.fx.None? && d.fy.None?
    {
      if !active {
        alphaTarget := 0.0;
      }
      d.fx := None;
      d.fy := None;
    }
  }

  /**
   * Link entries built through the id map of the live list are the entries
   * built by finding each id in it; when every link names an input id, and the
   * live ids are the input ids, every endpoint resolves to a live node.
   */
  lemma EntriesResolve(ps: seq<Particle>, m: map<string, Particle>, links: seq<LinkSpec>, entries: seq<Link>,
                       input: seq<Particle>)
    requires DistinctIds(ps) && MapsIds(m, ps) && IdSet(ps) == IdSet(input) && LinksNameNodes(links, input)
    requires |entries| == |links|
    requires forall i | 0 <= i < |links| :: entries[i] == Link(Lookup(m, links[i].source), Lookup(m, links[i].target), i)
    ensures forall i | 0 <= i < |links| :: entries[i] == Link(Find(ps, links[i].source), Find(ps, links[i].target), i)
    ensures EndpointsLive(entries, ps) && LinksResolved(entries)
  {
    forall i | 0 <= i < |links|
      ensures entries[i] == Link(Find(ps, links[i].source), Find(ps, links[i].target), i)
      ensures entries[i].source.Some? && entries[i].source.value in ps
      ensures entries[i].target.Some? && entries[i].target.value in ps
    {
      LookupIsFind(m, ps, links[i].source);
      LookupIsFind(m, ps, links[i].target);
      FindLive(ps, links[i].source);
      FindLive(ps, links[i].target);
    }
  }

  /** Dropping the stale nodes from the grown list leaves the reconciled list. */
  lemma StaleRemoved(before: seq<Particle>, input: seq<Particle>, grown: seq<Particle>, final: seq<Particle>)
    requires grown == before + Filter(input, IdSet(before), false)
    requires final == Filter(grown, IdSet(input), true)
    ensures final == Reconciled(before, input) && IdSet(final) == IdSet(input)
    ensures forall p | p in final :: p in grown && (p in before || p in input)
  {
    var newIds := IdSet(input);
    FilterConcat(before, Filter(input, IdSet(before), false), newIds, true);
    FilterIds(input, IdSet(before), false);
    FilterKeepsAll(Filter(input, IdSet(before), false), newIds);
    ReconciledIds(before, input);
    forall p | p in final ensures p in grown && (p in before || p in input) {
      FilterMembers(grown, newIds, true, p);
      ReconciledMembers(before, input, p);
    }
  }

  /**
   * The in-place node reconciliation on the live list `live`: survivors get
   * the new `radius` and `color` and keep everything else, unseen nodes are
   * appended by reference, and a reverse-order pass removes every node whose
   * id is gone. Returns the new live list and the id map, which then holds
   * exactly its nodes.
   */
  method ReconcileNodes(live: seq<Particle>, input: seq<Particle>) returns (final: seq<Particle>, nodeMap: map<string, Particle>)
    requires DistinctIds(live) && DistinctIds(input)
    modifies live
    ensures final == Reconciled(live, input)
    ensures DistinctIds(final) && IdSet(final) == IdSet(input)
    ensures MapsIds(nodeMap, final)
    ensures forall p | p in final :: p in live || p in input
    ensures Carries(final, input) && AttrsUnchanged(input)
    ensures forall p: Particle | old(allocated(p)) :: Motion(p) == old(Motion(p))
    ensures UntouchedOutside(live, IdSet(input))
  {
    nodeMap := IndexNodes(live);
    var grown, newIds;
    grown, newIds, nodeMap := MergeNodes(live, input, nodeMap);
    final, nodeMap := RemoveStale(grown, newIds, nodeMap, input);
    StaleRemoved(live, input, grown, final);
  }

  /** `nodeMap[node.id] = node` for every live node. */
  method IndexNodes(live: seq<Particle>) returns (nodeMap: map<string, Particle>)
    ensures MapsIds(nodeMap, live)
  {
    nodeMap := map[];
    for i := 0 to |live|
      invariant MapsIds(nodeMap, live[..i])
    {
      assert live[..i + 1] == live[..i] + [live[i]];
      nodeMap := nodeMap[live[i].id := live[i]];
    }
    assert live[..|live|] == live;
  }

  /**
   * The pass over the new node list: a known id gets the new `radius` and
   * `color` on its live particle; an unknown one is appended by reference.
   */
  method MergeNodes(live: seq<Particle>, input: seq<Particle>, nodeMap0: map<string, Particle>)
    returns (grown: seq<Particle>, newIds: set<string>, nodeMap: map<string, Particle>)
    requires DistinctIds(live) && DistinctIds(input) && MapsIds(nodeMap0, live)
    modifies live
    ensures newIds == IdSet(input)
    ensures grown == live + Filter(input, IdSet(live), false)
    ensures DistinctIds(grown) && MapsIds(nodeMap, grown)
    ensures Carries(grown, input) && AttrsUnchanged(input)
    ensures forall p: Particle | old(allocated(p)) :: Motion(p) == old(Motion(p))
    ensures UntouchedOutside(live, newIds)
  {
    ghost var attrs := seq(|input|, k requires 0 <= k < |input| reads input => Attrs(input[k]));
    ghost var kept := seq(|live|, i requires 0 <= i < |live| reads live => Attrs(live[i]));
    grown, nodeMap := live, nodeMap0;
    newIds := {};
    assert input[..0] == [];
    for j := 0 to |input|
      invariant MergedIds(grown, nodeMap, newIds, live, input, j)
      invariant MergedAttrs(grown, newIds, live, input, j, attrs, kept)
      invariant forall p: Particle | old(allocated(p)) :: Motion(p) == old(Motion(p))
    {
      if input[j].id in nodeMap {
        newIds := RefreshNode(grown, input, j, newIds, nodeMap, live, attrs, kept);
      } else {
        grown, newIds, nodeMap := AppendNode(grown, input, j, newIds, nodeMap, live, attrs, kept);
      }
    }
    assert input[..|input|] == input;
    forall p | p in live && p.id !in newIds ensures p.radius == old(p.radius) && p.color == old(p.color) && p.r == old(p.r) {
      var i :| 0 <= i < |live| && live[i] == p;
      assert Motion(p) == old(Motion(p));
    }
  }

  /** A known id: its live particle takes the new `radius` and `color`. */
  method RefreshNode(grown: seq<Particle>, input: seq<Particle>, j: nat, seen: set<string>, nodeMap: map<string, Particle>,
                     ghost live: seq<Particle>, ghost attrs: seq<Attributes>,
                     ghost kept: seq<Attributes>)
    returns (newIds: set<string>)
    requires j < |input| && input[j].id in nodeMap
    requires MergedIds(grown, nodeMap, seen, live, input, j)
    requires MergedAttrs(grown, seen, live, input, j, attrs, kept)
    modifies live
    ensures MergedIds(grown, nodeMap, newIds, live, input, j + 1)
    ensures MergedAttrs(grown, newIds, live, input, j + 1, attrs, kept)
    ensures forall p: Particle | old(allocated(p)) :: Motion(p) == old(Motion(p))
  {
    var newNode := input[j];
    newIds := seen + {newNode.id};
    ghost var e := RefreshIds(grown, nodeMap, seen, live, input, j);
    var existing := nodeMap[newNode.id];
    existing.radius := newNode.radius;
    existing.color := newNode.color;
    forall i, k | 0 <= i < |grown| && 0 <= k < j + 1 && grown[i].id == input[k].id
      ensures Attrs(grown[i]) == attrs[k]
    {
      if i == e {
        assert k == j;
      } else {
        assert grown[i] != existing;
      }
    }
    forall k | 0 <= k < |input| ensures Attrs(input[k]) == attrs[k] {
      if input[k] == existing {
        assert k == j;
      }
    }
    forall i | 0 <= i < |live| && live[i].id !in newIds ensures Attrs(live[i]) == kept[i] {
      assert live[i] != existing;
    }
  }

  /** An unseen id: the input node itself is appended and indexed. */
  method AppendNode(grown0: seq<Particle>, input: seq<Particle>, j: nat, seen: set<string>, nodeMap0: map<string, Particle>,
                    ghost live: seq<Particle>, ghost attrs: seq<Attributes>,
                    ghost kept: seq<Attributes>)
    returns (grown: seq<Particle>, newIds: set<string>, nodeMap: map<string, Particle>)
    requires j < |input| && input[j].id !in nodeMap0
    requires MergedIds(grown0, nodeMap0, seen, live, input, j)
    requires MergedAttrs(grown0, seen, live, input, j, attrs, kept)
    ensures MergedIds(grown, nodeMap, newIds, live, input, j + 1)
    ensures MergedAttrs(grown, newIds, live, input, j + 1, attrs, kept)
  {
    var newNode := input[j];
    newIds := seen + {newNode.id};
    AppendIds(grown0, nodeMap0, seen, live, input, j);
    grown := grown0 + [newNode];
    nodeMap := nodeMap0[newNode.id := newNode];
    forall i, k | 0 <= i < |grown| && 0 <= k < j + 1 && grown[i].id == input[k].id
      ensures Attrs(grown[i]) == attrs[k]
    {
      if i == |grown0| {
        assert k == j;
      } else {
        assert grown[i] == grown0[i];
      }
    }
  }

  /** The reverse-order pass that splices out every node whose id is not wanted. */
  method RemoveStale(grown: seq<Particle>, newIds: set<string>, nodeMap0: map<string, Particle>, ghost input: seq<Particle>)
    returns (final: seq<Particle>, nodeMap: map<string, Particle>)
    requires DistinctIds(grown) && MapsIds(nodeMap0, grown) && Carries(grown, input)
    ensures final == Filter(grown, newIds, true)
    ensures DistinctIds(final) && MapsIds(nodeMap, final)
    ensures Carries(final, input) && AttrsUnchanged(input)
  {
    final, nodeMap := grown, nodeMap0;
    var k := |final|;
    while k > 0
      invariant 0 <= k <= |grown|
      invariant final == grown[..k] + Filter(grown[k..], newIds, true)
      invariant DistinctIds(final)
      invariant MapsIds(nodeMap, final)
    {
      k := k - 1;
      StaleStep(grown, k, newIds, final);
      var oldId := final[k].id;
      if oldId !in newIds {
        RemoveAt(final, k, nodeMap);
        final := final[..k] + final[k + 1..];
        nodeMap := nodeMap - {oldId};
      }
    }
    assert grown[0..] == grown;
    forall p | p in final ensures p in grown {
      FilterMembers(grown, newIds, true, p);
    }
    SurvivorsCarry(grown, final, input);
  }

  /** Every survivor of a filter keeps carrying its namesake input node's attributes. */
  lemma SurvivorsCarry(grown: seq<Particle>, final: seq<Particle>, input: seq<Particle>)
    requires Carries(grown, input)
    requires forall p | p in final :: p in grown
    ensures Carries(final, input)
  {
    forall i, k | 0 <= i < |final| && 0 <= k < |input| && final[i].id == input[k].id
      ensures Attrs(final[i]) == Attrs(input[k])
    {
      assert final[i] in final;
      var g :| 0 <= g < |grown| && grown[g] == final[i];
    }
  }

  /** In the append phase only old particles are found in the id map. */
  lemma AppendedIdsAreNew(before: seq<Particle>, input: seq<Particle>, j: nat, oldIds: set<string>, existing: Particle)
    requires j < |input| && DistinctIds(input) && oldIds == IdSet(before)
    requires existing in before + Filter(input[..j], oldIds, false) && existing.id == input[j].id
    ensures existing in before
  {
    FilterMembers(input[..j], oldIds, false, existing);
    forall k | 0 <= k < j ensures input[..j][k] != existing {
      assert input[..j][k].id == input[k].id != input[j].id;
    }
  }

  /** Filtering a suffix one element longer. */
  lemma FilterStep(s: seq<Particle>, k: nat, ids: set<string>)
    requires k < |s|
    ensures Filter(s[k..], ids, true) == (if s[k].id in ids then [s[k]] else []) + Filter(s[k + 1..], ids, true)
  {
    assert s[k..] == [s[k]] + s[k + 1..];
    FilterConcat([s[k]], s[k + 1..], ids, true);
    assert [s[k]][..0] == [];
  }

  /**
   * One step of the reverse removal pass: with positions k + 1 onwards
   * filtered, entry k is still `grown[k]`, and keeping or dropping it
   * leaves positions k onwards filtered.
   */
  lemma StaleStep(grown: seq<Particle>, k: nat, ids: set<string>, final: seq<Particle>)
    requires k < |grown| && final == grown[..k + 1] + Filter(grown[k + 1..], ids, true)
    ensures k < |final| && final[k] == grown[k]
    ensures grown[k].id in ids ==> final == grown[..k] + Filter(grown[k..], ids, true)
    ensures grown[k].id !in ids ==> final[..k] + final[k + 1..] == grown[..k] + Filter(grown[k..], ids, true)
  {
    FilterStep(grown, k, ids);
    var tail := Filter(grown[k + 1..], ids, true);
    assert grown[..k + 1] == grown[..k] + [grown[k]];
    assert final[..k] == grown[..k];
    assert final[k + 1..] == tail;
  }

  /** Removing entry k of a distinct list keeps it distinct. */
  lemma RemoveAtDistinct(ps: seq<Particle>, k: nat)
    requires k < |ps| && DistinctIds(ps)
    ensures DistinctIds(ps[..k] + ps[k + 1..])
    ensures forall p | p in ps[..k] + ps[k + 1..] :: p in ps && p.id != ps[k].id
    ensures forall p | p in ps && p.id != ps[k].id :: p in ps[..k] + ps[k + 1..]
  {
    var rest := ps[..k] + ps[k + 1..];
    assert forall i | 0 <= i < |rest| :: rest[i] == if i < k then ps[i] else ps[i + 1];
    forall p | p in ps && p.id != ps[k].id ensures p in rest {
      var i :| 0 <= i < |ps| && ps[i] == p;
      if i < k { assert rest[i] == p; } else { assert rest[i - 1] == p; }
    }
  }

  /** Removing entry k of a distinct list removes exactly its id from the id map. */
  lemma RemoveAt(ps: seq<Particle>, k: nat, m: map<string, Particle>)
    requires k < |ps| && DistinctIds(ps) && MapsIds(m, ps)
    ensures DistinctIds(ps[..k] + ps[k + 1..])
    ensures MapsIds(m - {ps[k].id}, ps[..k] + ps[k + 1..])
  {
    var rest := ps[..k] + ps[k + 1..];
    RemoveAtDistinct(ps, k);
    assert IdSet(rest) == IdSet(ps) - {ps[k].id};
  }
}
