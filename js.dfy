/**
 * The fragment of JavaScript value semantics the graph component relies on:
 * the JSON image of its figure (what `JSON.stringify` compares), truthiness,
 * the `a || b` defaulting idiom on numbers, and `String.prototype.substr`.
 */
module Js {
  import opened Wrappers

  /** The JSON image of a node object (every property it may carry). */
  datatype NodeJson = NodeJson(
    id: string, radius: Option<real>, color: Option<string>,
    x: Option<real>, y: Option<real>, vx: Option<real>, vy: Option<real>,
    fx: Option<real>, fy: Option<real>, r: Option<real>)

  /** A link as the caller describes it: `{source, target[, width]}`, by node id. */
  datatype LinkSpec = LinkSpec(source: string, target: string, width: Option<real>)

  /** The JSON image of a top-level figure value. `Graph` is the only object value. */
  datatype Json =
    | Undefined
    | Num(n: real)
    | Str(s: string)
    | Graph(nodes: seq<NodeJson>, links: seq<LinkSpec>)

  /** `typeof v === 'object'` */
  predicate IsObject(v: Json) {
    v.Graph?
  }

  /** JavaScript truthiness (NaN is not modelled). */
  predicate Truthy(v: Json) {
    match v
    case Undefined => false
    case Num(n) => n != 0.0
    case Str(s) => s != ""
    case Graph(_, _) => true
  }

  /** `v || dflt` where `v` is a number or undefined. */
  function Or(v: Option<real>, dflt: real): real {
    if v.Some? && v.value != 0.0 then v.value else dflt
  }

  /**
   * `s.substr(start)`: a negative start counts from the end of the string and
   * is clamped to 0; a start past the end yields the empty string.
   */
  function Substr(s: string, start: int): (r: string)
    ensures |r| <= |s|
  {
    var from := if start < 0 then (if |s| + start < 0 then 0 else |s| + start)
                else if start > |s| then |s| else start;
    s[from..]
  }

  predicate EndsWith(s: string, suffix: string) {
    |suffix| <= |s| && s[|s| - |suffix|..] == suffix
  }

  /** `s.substr(s.length - suffix.length) === suffix` is exactly "s ends with suffix". */
  lemma SubstrSuffixIsEndsWith(s: string, suffix: string)
    ensures (Substr(s, |s| - |suffix|) == suffix) <==> EndsWith(s, suffix)
  {
    if |suffix| > |s| {
      var t := Substr(s, |s| - |suffix|);
      if |s| == 0 {
        assert t == "";
      } else {
        assert |t| < |suffix|;
      }
    }
  }
}
