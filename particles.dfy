/**
 * The live objects of the network component: node particles (shared by
 * reference with the caller's data and with the force simulation), link
 * entries, and the sequence functions that describe node reconciliation and
 * size derivation.
 */
module NetworkData {
  import opened Wrappers
  import opened Js

  /**
   * A node object. `id`, `radius` and `color` come from the caller; the
   * simulation adds position, velocity and pin, and the component adds the
   * derived pixel radius `_r` (here `r`). A field that was never set is `None`.
   */
  class Particle {
    const id: string
    var radius: Option<real>
    var color: Option<string>
    var x: Option<real>
    var y: Option<real>
    var vx: Option<real>
    var vy: Option<real>
    var fx: Option<real>
    var fy: Option<real>
    var r: Option<real>

    /** A fresh node object `{id[, radius][, color]}` as a caller supplies it. */
    constructor (id: string, radius: Option<real>, color: Option<string>)
      ensures this.id == id && this.radius == radius && this.color == color
      ensures x.None? && y.None? && vx.None? && vy.None?
      ensures fx.None? && fy.None? && r.None?
    {
      this.id := id;
      this.radius := radius;
      this.color := color;
      x, y, vx, vy := None, None, None, None;
      fx, fy, r := None, None, None;
    }

    /** What `JSON.stringify` sees of this object now. */
    function Snapshot(): NodeJson
      reads this
    {
      NodeJson(id, radius, color, x, y, vx, vy, fx, fy, r)
    }
  }

  /** What a caller supplies on a node besides its id. */
  type Attributes = (Option<real>, Option<string>)

  /** What the simulation owns on a node, with the derived size. */
  type MotionState = (Option<real>, Option<real>, Option<real>, Option<real>, Option<real>, Option<real>, Option<real>)

  function Attrs(p: Particle): Attributes
    reads p
  {
    (p.radius, p.color)
  }

  function Motion(p: Particle): MotionState
    reads p
  {
    (p.x, p.y, p.vx, p.vy, p.fx, p.fy, p.r)
  }

  /** Position, velocity and pin are the same as in the pre-state. */
  twostate predicate MotionUnchanged(p: Particle)
    reads p
  {
    p.x == old(p.x) && p.y == old(p.y) && p.vx == old(p.vx) && p.vy == old(p.vy) &&
    p.fx == old(p.fx) && p.fy == old(p.fy)
  }

  /** A link entry `{source, target, index}` with endpoints resolved to particles. */
  datatype Link = Link(source: Option<Particle>, target: Option<Particle>, index: nat)

  function IdSet(ps: seq<Particle>): set<string> {
    set p | p in ps :: p.id
  }

  predicate DistinctIds(ps: seq<Particle>) {
    forall i, j | 0 <= i < j < |ps| :: ps[i].id != ps[j].id
  }

  /** The particles of `ps`, in order, whose id is in `ids` (`inside`) or not in it (`!inside`). */
  function Filter(ps: seq<Particle>, ids: set<string>, inside: bool): seq<Particle>
    decreases |ps|
  {
    if ps == [] then []
    else Filter(ps[..|ps| - 1], ids, inside) + (if (ps[|ps| - 1].id in ids) == inside then [ps[|ps| - 1]] else [])
  }

  /**
   * The node list reconciliation leaves: the old particles whose id is still
   * wanted, in their old order, then the input nodes with unseen ids, in input order.
   */
  function Reconciled(old_: seq<Particle>, input: seq<Particle>): seq<Particle> {
    Filter(old_, IdSet(input), true) + Filter(input, IdSet(old_), false)
  }

  /** The first particle of `ps` with the given id. */
  function Find(ps: seq<Particle>, id: string): Option<Particle> {
    if ps == [] then None
    else if ps[0].id == id then Some(ps[0])
    else Find(ps[1..], id)
  }

  /** `nodeMap` holds exactly the ids of `ps`, each bound to the particle of `ps` with that id. */
  predicate MapsIds(m: map<string, Particle>, ps: seq<Particle>) {
    m.Keys == IdSet(ps) && forall id | id in m :: m[id] in ps && m[id].id == id
  }

  function Lookup(m: map<string, Particle>, id: string): Option<Particle> {
    if id in m then Some(m[id]) else None
  }

  lemma {:induction false} FilterConcat(a: seq<Particle>, b: seq<Particle>, ids: set<string>, inside: bool)
    ensures Filter(a + b, ids, inside) == Filter(a, ids, inside) + Filter(b, ids, inside)
    decreases |b|
  {
    if b == [] {
      assert a + b == a;
    } else {
      var b' := b[..|b| - 1];
      assert (a + b)[..|a + b| - 1] == a + b';
      FilterConcat(a, b', ids, inside);
    }
  }

  /** A particle survives filtering exactly when it is in `ps` and its id passes. */
  lemma {:induction false} FilterMembers(ps: seq<Particle>, ids: set<string>, inside: bool, p: Particle)
    ensures p in Filter(ps, ids, inside) <==> p in ps && (p.id in ids) == inside
    decreases |ps|
  {
    if ps != [] {
      var init := ps[..|ps| - 1];
      FilterMembers(init, ids, inside, p);
      assert ps == init + [ps[|ps| - 1]];
    }
  }

  lemma FilterIds(ps: seq<Particle>, ids: set<string>, inside: bool)
    ensures inside ==> IdSet(Filter(ps, ids, inside)) == IdSet(ps) * ids
    ensures !inside ==> IdSet(Filter(ps, ids, inside)) == IdSet(ps) - ids
  {
    var f := Filter(ps, ids, inside);
    forall p | p in f ensures p in ps && (p.id in ids) == inside {
      FilterMembers(ps, ids, inside, p);
    }
    forall p | p in ps && (p.id in ids) == inside ensures p in f {
      FilterMembers(ps, ids, inside, p);
    }
  }

  lemma {:induction false} FilterDistinct(ps: seq<Particle>, ids: set<string>, inside: bool)
    requires DistinctIds(ps)
    ensures DistinctIds(Filter(ps, ids, inside))
    decreases |ps|
  {
    if ps != [] {
      var init := ps[..|ps| - 1];
      var last := ps[|ps| - 1];
      FilterDistinct(init, ids, inside);
      if (last.id in ids) == inside {
        var f := Filter(init, ids, inside);
        forall q | q in f ensures q.id != last.id {
          FilterMembers(init, ids, inside, q);
        }
      }
    }
  }

  /** Filtering by a set that holds every id keeps everything. */
  lemma {:induction false} FilterKeepsAll(ps: seq<Particle>, ids: set<string>)
    requires IdSet(ps) <= ids
    ensures Filter(ps, ids, true) == ps
    decreases |ps|
  {
    if ps != [] {
      var init := ps[..|ps| - 1];
      assert IdSet(init) <= IdSet(ps);
      assert ps[|ps| - 1] in ps;
      FilterKeepsAll(init, ids);
    }
  }

  /** Keeping the ids outside the empty set keeps everything. */
  lemma {:induction false} FilterNoneOut(ps: seq<Particle>)
    ensures Filter(ps, {}, false) == ps
    decreases |ps|
  {
    if ps != [] {
      FilterNoneOut(ps[..|ps| - 1]);
    }
  }

  /** Filtering a prefix one element longer. */
  lemma FilterPrefixStep(s: seq<Particle>, j: nat, ids: set<string>, inside: bool)
    requires j < |s|
    ensures Filter(s[..j + 1], ids, inside) ==
      Filter(s[..j], ids, inside) + (if (s[j].id in ids) == inside then [s[j]] else [])
  {
    assert s[..j + 1][..j] == s[..j];
  }

  lemma IdSetOfConcat(a: seq<Particle>, b: seq<Particle>)
    ensures IdSet(a + b) == IdSet(a) + IdSet(b)
  {
    forall q | q in a + b ensures q in a || q in b {}
    forall q | q in a ensures q in a + b {}
    forall q | q in b ensures q in a + b {}
  }

  lemma IdSetAppend(ps: seq<Particle>, p: Particle)
    ensures IdSet(ps + [p]) == IdSet(ps) + {p.id}
  {
    forall q | q in ps + [p] ensures q in ps || q == p {}
    assert p in ps + [p];
    forall q | q in ps ensures q in ps + [p] {}
  }

  /** Indexing one more particle under a new id keeps the list distinct and indexed. */
  lemma MapsIdsAppend(m: map<string, Particle>, ps: seq<Particle>, p: Particle)
    requires DistinctIds(ps) && MapsIds(m, ps) && p.id !in m
    ensures DistinctIds(ps + [p]) && MapsIds(m[p.id := p], ps + [p])
    ensures forall i | 0 <= i < |ps| :: ps[i].id != p.id
  {
    assert forall i | 0 <= i < |ps| :: ps[i].id in IdSet(ps);
    IdSetAppend([], p);
    assert [] + [p] == [p];
    DistinctConcat(ps, [p]);
    IdSetAppend(ps, p);
    var m' := m[p.id := p];
    forall id | id in m' ensures m'[id] in ps + [p] {
      if id != p.id {
        assert m[id] in ps;
      }
    }
  }

  lemma DistinctConcat(a: seq<Particle>, b: seq<Particle>)
    requires DistinctIds(a) && DistinctIds(b) && IdSet(a) !! IdSet(b)
    ensures DistinctIds(a + b)
  {
    forall i, j | 0 <= i < j < |a + b| ensures (a + b)[i].id != (a + b)[j].id {
      if j < |a| {
        assert (a + b)[i] == a[i] && (a + b)[j] == a[j];
      } else if i >= |a| {
        assert (a + b)[i] == b[i - |a|] && (a + b)[j] == b[j - |a|];
      } else {
        assert (a + b)[i] == a[i] && (a + b)[j] == b[j - |a|];
        assert a[i].id in IdSet(a) && b[j - |a|].id in IdSet(b);
      }
    }
  }

  /** After reconciliation the live ids are exactly the input ids. */
  lemma ReconciledIds(old_: seq<Particle>, input: seq<Particle>)
    ensures IdSet(Reconciled(old_, input)) == IdSet(input)
  {
    var kept := Filter(old_, IdSet(input), true);
    var added := Filter(input, IdSet(old_), false);
    FilterIds(old_, IdSet(input), true);
    FilterIds(input, IdSet(old_), false);
    assert IdSet(kept + added) == IdSet(kept) + IdSet(added) by {
      forall p | p in kept + added ensures p in kept || p in added {}
    }
  }

  /** Reconciliation never produces two particles with one id. */
  lemma ReconciledDistinct(old_: seq<Particle>, input: seq<Particle>)
    requires DistinctIds(old_) && DistinctIds(input)
    ensures DistinctIds(Reconciled(old_, input))
  {
    var kept := Filter(old_, IdSet(input), true);
    var added := Filter(input, IdSet(old_), false);
    FilterDistinct(old_, IdSet(input), true);
    FilterDistinct(input, IdSet(old_), false);
    FilterIds(old_, IdSet(input), true);
    FilterIds(input, IdSet(old_), false);
    DistinctConcat(kept, added);
  }

  /**
   * Survivors keep their identity: an old particle whose id is still wanted is
   * itself in the result, and a particle in the result is an old one or an input one.
   */
  lemma ReconciledMembers(old_: seq<Particle>, input: seq<Particle>, p: Particle)
    ensures p in old_ && p.id in IdSet(input) ==> p in Reconciled(old_, input)
    ensures p in Reconciled(old_, input) ==> p in old_ || p in input
    ensures p in input && p.id !in IdSet(old_) ==> p in Reconciled(old_, input)
  {
    FilterMembers(old_, IdSet(input), true, p);
    FilterMembers(input, IdSet(old_), false, p);
  }

  /** In a list with distinct ids, `Find` returns the one particle carrying an id. */
  lemma {:induction false} FindLive(ps: seq<Particle>, id: string)
    requires DistinctIds(ps)
    ensures Find(ps, id).Some? <==> id in IdSet(ps)
    ensures Find(ps, id).Some? ==> Find(ps, id).value in ps && Find(ps, id).value.id == id
    ensures forall p | p in ps && p.id == id :: Find(ps, id) == Some(p)
    decreases |ps|
  {
    if ps != [] {
      var tail := ps[1..];
      assert DistinctIds(tail) by {
        forall i, j | 0 <= i < j < |tail| ensures tail[i].id != tail[j].id {
          assert tail[i] == ps[i + 1] && tail[j] == ps[j + 1];
        }
      }
      FindLive(tail, id);
      assert ps == [ps[0]] + tail;
      if ps[0].id == id {
        forall p | p in tail ensures p.id != id {
          var k :| 0 <= k < |tail| && tail[k] == p;
          assert ps[k + 1] == p;
        }
      }
    }
  }

  /** A map that `MapsIds` a distinct list resolves ids exactly as `Find` does. */
  lemma LookupIsFind(m: map<string, Particle>, ps: seq<Particle>, id: string)
    requires DistinctIds(ps) && MapsIds(m, ps)
    ensures Lookup(m, id) == Find(ps, id)
  {
    FindLive(ps, id);
  }

  // ---------------------------------------------------------------------------
  // Size derivation

  /** `v || 0` */
  function OrZero(v: Option<real>): real {
    Or(v, 0.0)
  }

  function Max(a: real, b: real): real {
    if a < b then b else a
  }

  /** A running `Math.max(found, v || 0)` from `found = 0` over every value. */
  function MaxOf(vals: seq<Option<real>>): real
    decreases |vals|
  {
    if vals == [] then 0.0 else Max(MaxOf(vals[..|vals| - 1]), OrZero(vals[|vals| - 1]))
  }

  /** `MaxOf` is the largest of 0 and the values, and is attained unless it is 0. */
  lemma {:induction false} MaxOfIsLargest(vals: seq<Option<real>>)
    ensures 0.0 <= MaxOf(vals)
    ensures forall i | 0 <= i < |vals| :: OrZero(vals[i]) <= MaxOf(vals)
    ensures MaxOf(vals) == 0.0 || exists i | 0 <= i < |vals| :: OrZero(vals[i]) == MaxOf(vals)
    decreases |vals|
  {
    if vals != [] {
      var init := vals[..|vals| - 1];
      MaxOfIsLargest(init);
      assert forall i | 0 <= i < |init| :: init[i] == vals[i];
      if MaxOf(vals) != 0.0 && MaxOf(vals) != OrZero(vals[|vals| - 1]) {
        var k :| 0 <= k < |init| && OrZero(init[k]) == MaxOf(init);
        assert OrZero(vals[k]) == MaxOf(vals);
      }
    }
  }

  /** `maxFound || 1`: the divisor of the size scale, never zero. */
  function ScaleOf(vals: seq<Option<real>>): (s: real)
    ensures s > 0.0
  {
    MaxOfIsLargest(vals);
    Or(Some(MaxOf(vals)), 1.0)
  }

  /**
   * `(raw * max / found) || dflt`: a missing raw value gives NaN, which is
   * falsy, as is a zero product; both fall back to `dflt`.
   */
  function Scaled(raw: Option<real>, max: real, found: real, dflt: real): real
    requires found != 0.0
  {
    Or(if raw.Some? then Some(raw.value * max / found) else None, dflt)
  }

  /** A running maximum over the values, as the `each` callbacks accumulate it. */
  method MaxFound(vals: seq<Option<real>>) returns (m: real)
    ensures m == MaxOf(vals)
  {
    m := 0.0;
    for i := 0 to |vals|
      invariant m == MaxOf(vals[..i])
    {
      assert vals[..i + 1][..i] == vals[..i];
      m := Max(m, OrZero(vals[i]));
    }
    assert vals[..|vals|] == vals;
  }

  /** Sizes are linear in the raw value, with slope `max / found`. */
  lemma ScaledIsLinear(raw: Option<real>, max: real, found: real, dflt: real)
    requires found > 0.0 && max != 0.0
    requires raw.Some? && raw.value != 0.0
    ensures Scaled(raw, max, found, dflt) == raw.value * (max / found)
  {
    assert raw.value * max != 0.0;
  }

  /** A missing or zero raw value always gets the default size. */
  lemma MissingGetsDefault(raw: Option<real>, max: real, found: real, dflt: real)
    requires found != 0.0
    requires raw.None? || raw.value == 0.0
    ensures Scaled(raw, max, found, dflt) == dflt
  {
  }

  /** When some raw value is positive, the largest one is scaled to exactly `max`. */
  lemma LargestGetsMax(vals: seq<Option<real>>, max: real, dflt: real)
    requires max != 0.0
    requires exists i | 0 <= i < |vals| :: OrZero(vals[i]) > 0.0
    ensures exists i | 0 <= i < |vals| :: vals[i].Some? && vals[i].value == MaxOf(vals) &&
                                          Scaled(vals[i], max, ScaleOf(vals), dflt) == max
  {
    MaxOfIsLargest(vals);
    var j :| 0 <= j < |vals| && OrZero(vals[j]) > 0.0;
    assert MaxOf(vals) > 0.0;
    var k :| 0 <= k < |vals| && OrZero(vals[k]) == MaxOf(vals);
    var m := MaxOf(vals);
    assert vals[k] == Some(m);
    assert ScaleOf(vals) == m;
    ScaledSelf(m, max, dflt);
  }

  lemma ScaledSelf(m: real, max: real, dflt: real)
    requires m > 0.0 && max != 0.0
    ensures Scaled(Some(m), max, m, dflt) == max
  {
    assert m * max / m == max;
  }

  lemma RatioAtMost(x: real, m: real, max: real)
    requires 0.0 < x <= m && max > 0.0
    ensures 0.0 < x * max / m <= max
  {
    var q := x / m;
    assert q <= 1.0;
    assert x * max / m == q * max;
  }

  /** With a positive `max`, no positive raw value is scaled beyond `max`. */
  lemma ScaledAtMostMax(vals: seq<Option<real>>, max: real, dflt: real, i: int)
    requires max > 0.0 && 0 <= i < |vals| && OrZero(vals[i]) > 0.0
    ensures 0.0 < Scaled(vals[i], max, ScaleOf(vals), dflt) <= max
  {
    MaxOfIsLargest(vals);
    var x, m := vals[i].value, MaxOf(vals);
    assert 0.0 < x <= m && ScaleOf(vals) == m;
    RatioAtMost(x, m, max);
    assert Scaled(vals[i], max, ScaleOf(vals), dflt) == x * max / m;
  }

  /**
   * With positive settings and no negative raw value, every derived size is
   * positive and at most the larger of `max` and `dflt`.
   */
  lemma ScaledPositive(vals: seq<Option<real>>, max: real, dflt: real, i: int)
    requires max > 0.0 && dflt > 0.0 && 0 <= i < |vals| && OrZero(vals[i]) >= 0.0
    ensures 0.0 < Scaled(vals[i], max, ScaleOf(vals), dflt) <= Max(max, dflt)
  {
    if OrZero(vals[i]) > 0.0 {
      ScaledAtMostMax(vals, max, dflt, i);
    } else {
      MissingGetsDefault(vals[i], max, ScaleOf(vals), dflt);
    }
  }

  /** The raw `radius` of every particle, in order. */
  function Radii(ps: seq<Particle>): (vals: seq<Option<real>>)
    reads ps
    ensures |vals| == |ps|
  {
    seq(|ps|, i requires 0 <= i < |ps| reads ps => ps[i].radius)
  }

  /** Link entries are built as `{source, target, index}`: they carry no `width`. */
  function EntryWidth(l: Link): Option<real> {
    None
  }

  function EntryWidths(links: seq<Link>): (vals: seq<Option<real>>)
    ensures |vals| == |links|
  {
    seq(|links|, i requires 0 <= i < |links| => EntryWidth(links[i]))
  }

  /** Consequently every link is drawn with the default `linkWidth`. */
  lemma EveryLinkGetsDefaultWidth(links: seq<Link>, maxLinkWidth: real, linkWidth: real, i: int)
    requires 0 <= i < |links|
    ensures Scaled(EntryWidth(links[i]), maxLinkWidth, ScaleOf(EntryWidths(links)), linkWidth) == linkWidth
  {
  }
}
