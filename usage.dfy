/**
 * `net_data` of the demo app: the graph shown for a selection string such as
 * "C25". The 26 letters form a ring, each linked to the two letters before
 * it, and the selected letter is taken out. Every character of the selection
 * opens one level of eight child nodes, linked in a ring of their own and
 * into the level above.
 */
module Usage {
  import opened Wrappers
  import Js

  const ALPHABET: string := "ABCDEFGHIJKLMNOPQRSTUVWXYZ"
  const NUMS: string := "12345678"
  const SELECTED_COLORS: seq<string> := ["#006", "#060", "#600", "#A80", "#A08"]

  /** A node dict: `{'id': id}`, or `{'id': id, 'color': color}` for a child node. */
  datatype Node = Node(id: string, color: Option<string>)

  /** The returned `{'nodes': nodes, 'links': links}`. */
  datatype Graph = Graph(nodes: seq<Node>, links: seq<Js.LinkSpec>)

  function Ids(ns: seq<Node>): set<string> {
    set i | 0 <= i < |ns| :: ns[i].id
  }

  predicate DistinctIds(ns: seq<Node>) {
    forall i, j | 0 <= i < j < |ns| :: ns[i].id != ns[j].id
  }

  /** Every link endpoint names one of `ids`. */
  predicate Resolves(links: seq<Js.LinkSpec>, ids: set<string>) {
    forall i | 0 <= i < |links| :: links[i].source in ids && links[i].target in ids
  }

  /** `alphabet[k]`, negative `k` counting from the end: the letters are consecutive code points. */
  function LetterAt(k: int): char
    requires -26 <= k < 26
  {
    ('A' as int + (if k < 0 then k + 26 else k)) as char
  }

  /** `nums[k]`: the digits are consecutive code points. */
  function DigitAt(k: nat): char
    requires k < 8
  {
    ('1' as int + k) as char
  }

  lemma LetterCodes()
    ensures |ALPHABET| == 26 && forall k | -26 <= k < 26 :: At(ALPHABET, k) == LetterAt(k)
  {
  }

  lemma DigitCodes()
    ensures |NUMS| == 8 && forall k | 0 <= k < 8 :: NUMS[k] == DigitAt(k)
  {
  }

  // Python indexing and `str.index`.

  /** `s[k]`: a negative `k` counts from the end. */
  function At<T>(s: seq<T>, k: int): T
    requires -|s| <= k < |s|
  {
    if k < 0 then s[|s| + k] else s[k]
  }

  /** `s.index(c)`: the first position of `c`; None where Python raises ValueError. */
  function Index(s: string, c: char): (r: Option<nat>)
    ensures r.Some? <==> c in s
    ensures r.Some? ==> r.value < |s| && s[r.value] == c && c !in s[..r.value]
  {
    if |s| == 0 then None
    else if s[0] == c then Some(0)
    else
      match Index(s[1..], c)
      case None => None
      case Some(k) =>
        assert s[..k + 1] == [s[0]] + s[1..][..k];
        Some(k + 1)
  }

  // The letter ring.

  /** `selected and selected[0]`: nothing for None or "", otherwise the first character. */
  function SelectedLetter(selected: Option<string>): Option<char> {
    if selected.Some? && selected.value != "" then Some(selected.value[0]) else None
  }

  /** `make_link(i, j, ids)` */
  function MakeLink(i: int, j: int, ids: seq<string>): Js.LinkSpec
    requires -|ids| <= i < |ids| && -|ids| <= j < |ids|
  {
    Js.LinkSpec(At(ids, i), At(ids, j), None)
  }

  /** `make_link(i, j)` with the default `ids=alphabet`: indexing a string gives one-character strings. */
  function LetterLink(i: int, j: int): Js.LinkSpec
    requires -26 <= i < 26 && -26 <= j < 26
  {
    Js.LinkSpec([LetterAt(i)], [LetterAt(j)], None)
  }

  /** `not_selected(i, j)`: neither letter is the selected one. */
  predicate NotSelected(letter: Option<char>, i: int, j: int)
    requires -26 <= i < 26 && -26 <= j < 26
  {
    letter != Some(LetterAt(i)) && letter != Some(LetterAt(j))
  }

  /** `[{'id': letter} for letter in alphabet[:n] if letter != selected_letter]` */
  function LetterNodes(letter: Option<char>, n: nat): seq<Node>
    requires n <= 26
  {
    if n == 0 then []
    else LetterNodes(letter, n - 1) + (if letter != Some(LetterAt(n - 1)) then [Node([LetterAt(n - 1)], None)] else [])
  }

  /** `[make_link(i, i - d) for i in range(n) if not_selected(i, i - d)]` */
  function RingLinks(letter: Option<char>, d: nat, n: nat): seq<Js.LinkSpec>
    requires 1 <= d <= 2 && n <= 26
  {
    if n == 0 then []
    else
      RingLinks(letter, d, n - 1)
      + (if NotSelected(letter, n - 1, n - 1 - d) then [LetterLink(n - 1, n - 1 - d)] else [])
  }

  /** The four letters around position `i`, wrapping both ways. */
  function Neighbours(i: nat): seq<string>
    requires i < 26
  {
    [[LetterAt(i - 2)], [LetterAt(i - 1)], [LetterAt((i + 1) % 26)], [LetterAt((i + 2) % 26)]]
  }

  // One `add_select` level.

  /** `[prefix + i for i in nums]` */
  function ChildIds(prefix: string): seq<string> {
    seq(8, k requires 0 <= k < 8 => prefix + [DigitAt(k)])
  }

  /** `selected_colors[(len(prefix) - 1) % len(selected_colors)]` (Python's `%` and Dafny's agree: the divisor is positive). */
  function LevelColor(prefix: string): string {
    SELECTED_COLORS[(|prefix| - 1) % |SELECTED_COLORS|]
  }

  function LevelNodes(prefix: string): seq<Node> {
    seq(8, k requires 0 <= k < 8 => Node(ChildIds(prefix)[k], Some(LevelColor(prefix))))
  }

  /** `[make_link(i, i - d, new_ids) for i in range(7)]` */
  function InnerRing(ids: seq<string>, d: nat): seq<Js.LinkSpec>
    requires |ids| == 8 && 1 <= d <= 2
  {
    seq(7, i requires 0 <= i < 7 => MakeLink(i, i - d, ids))
  }

  /** The links from children 1, 2, 5 (and 6, when there is a fourth entry) to `external_links`. */
  function ExternalLinks(ids: seq<string>, external: seq<string>): seq<Js.LinkSpec>
    requires |ids| == 8 && |external| >= 3
  {
    [Js.LinkSpec(ids[0], external[0], None), Js.LinkSpec(ids[1], external[1], None), Js.LinkSpec(ids[4], external[2], None)]
    + (if |external| > 3 then [Js.LinkSpec(ids[5], external[3], None)] else [])
  }

  function LevelLinks(prefix: string, external: seq<string>): seq<Js.LinkSpec>
    requires |external| >= 3
  {
    var ids := ChildIds(prefix);
    InnerRing(ids, 1) + InnerRing(ids, 2) + ExternalLinks(ids, external)
  }

  /** The children the next level links into: the chosen child and its two ring neighbours. */
  function NextExternal(ids: seq<string>, s0num: nat): seq<string>
    requires |ids| == 8 && s0num < 8
  {
    [At(ids, s0num - 1), ids[s0num], ids[(s0num + 1) % 8]]
  }

  /**
   * What `add_select(prefix, suffix, external_links)` appends to the node and
   * link lists, level after level; None where `nums.index` raises.
   */
  function Expand(prefix: string, suffix: string, external: seq<string>): Option<(seq<Node>, seq<Js.LinkSpec>)>
    requires |external| >= 3
    decreases |suffix|
  {
    if suffix == [] then Some((LevelNodes(prefix), LevelLinks(prefix, external)))
    else
      match Index(NUMS, suffix[0])
      case None => None
      case Some(s0num) =>
        match Expand(prefix + [suffix[0]], suffix[1..], NextExternal(ChildIds(prefix), s0num))
        case None => None
        case Some(rest) => Some((LevelNodes(prefix) + rest.0, LevelLinks(prefix, external) + rest.1))
  }

  /** The value of `net_data(selected)`; None where it raises ValueError. */
  function NetGraph(selected: Option<string>): Option<Graph> {
    var letter := SelectedLetter(selected);
    var nodes := LetterNodes(letter, 26);
    var links := RingLinks(letter, 1, 26) + RingLinks(letter, 2, 26);
    if letter.None? then Some(Graph(nodes, links))
    else
      match Index(ALPHABET, letter.value)
      case None => None
      case Some(i) =>
        match Expand([letter.value], selected.value[1..], Neighbours(i))
        case None => None
        case Some(more) => Some(Graph(nodes + more.0, links + more.1))
  }

  // The generator itself.

  /**
   * `add_select`: appends one level to `nodes` and `links`, then recurses on
   * the rest of the selection. `ok` is false where `nums.index` raises.
   */
  method AddSelect(prefix: string, suffix: string, external: seq<string>, nodes0: seq<Node>, links0: seq<Js.LinkSpec>)
    returns (ok: bool, nodes: seq<Node>, links: seq<Js.LinkSpec>)
    requires |external| >= 3
    ensures ok == Expand(prefix, suffix, external).Some?
    ensures ok ==> nodes == nodes0 + Expand(prefix, suffix, external).value.0
    ensures ok ==> links == links0 + Expand(prefix, suffix, external).value.1
    decreases |suffix|
  {
    var newIds;
    newIds, nodes, links := AppendLevel(prefix, external, nodes0, links0);
    ok := true;
    if suffix != [] {
      var s0 := Index(NUMS, suffix[0]);
      if s0.None? {
        return false, nodes, links;
      }
      var s0num := s0.value;
      var newExternal := [At(newIds, s0num as int - 1), newIds[s0num], newIds[(s0num + 1) % 8]];
      assert newExternal == NextExternal(ChildIds(prefix), s0num);
      ok, nodes, links := AddSelect(prefix + [suffix[0]], suffix[1..], newExternal, nodes, links);
      if ok {
        ghost var rest := Expand(prefix + [suffix[0]], suffix[1..], newExternal).value;
        Associative(nodes0, LevelNodes(prefix), rest.0);
        Associative(links0, LevelLinks(prefix, external), rest.1);
      }
    }
  }

  lemma Associative<T>(a: seq<T>, b: seq<T>, c: seq<T>)
    ensures (a + b) + c == a + (b + c)
  {
  }

  /** The appends of one `add_select` level, before it recurses. */
  method AppendLevel(prefix: string, external: seq<string>, nodes0: seq<Node>, links0: seq<Js.LinkSpec>)
    returns (newIds: seq<string>, nodes: seq<Node>, links: seq<Js.LinkSpec>)
    requires |external| >= 3
    ensures newIds == ChildIds(prefix)
    ensures nodes == nodes0 + LevelNodes(prefix)
    ensures links == links0 + LevelLinks(prefix, external)
  {
    newIds := ChildIds(prefix);
    var color := LevelColor(prefix);
    nodes := nodes0 + seq(8, k requires 0 <= k < 8 => Node(newIds[k], Some(color)));
    links := links0 + InnerRing(newIds, 1);
    links := links + InnerRing(newIds, 2);
    links := links + [Js.LinkSpec(newIds[0], external[0], None)];
    links := links + [Js.LinkSpec(newIds[1], external[1], None)];
    links := links + [Js.LinkSpec(newIds[4], external[2], None)];
    if |external| > 3 {
      links := links + [Js.LinkSpec(newIds[5], external[3], None)];
    }
  }

  /** `net_data(selected)`; None where it raises ValueError. */
  method NetData(selected: Option<string>) returns (r: Option<Graph>)
    ensures r == NetGraph(selected)
    ensures r.Some? <==> Accepted(selected)
    ensures r.Some? ==> DistinctIds(r.value.nodes) && Resolves(r.value.links, Ids(r.value.nodes))
  {
    NetGraphDefined(selected);
    if NetGraph(selected).Some? {
      NetGraphWellFormed(selected);
    }
    var letter := SelectedLetter(selected);
    var nodes := LetterNodes(letter, 26);
    var links := RingLinks(letter, 1, 26) + RingLinks(letter, 2, 26);
    if letter.Some? {
      var i := Index(ALPHABET, letter.value);
      if i.None? {
        return None;
      }
      var ok;
      ok, nodes, links := AddSelect([letter.value], selected.value[1..], Neighbours(i.value), nodes, links);
      if !ok {
        return None;
      }
    }
    return Some(Graph(nodes, links));
  }

  // Properties of the generated graph.

  /** A selection `net_data` accepts: nothing, or a letter followed by digits 1 to 8. */
  predicate Accepted(selected: Option<string>) {
    selected.None? || selected.value == ""
    || (selected.value[0] in ALPHABET && forall k | 1 <= k < |selected.value| :: selected.value[k] in NUMS)
  }

  lemma {:induction false} UnselectedLetters(n: nat)
    requires n <= 26
    ensures |LetterNodes(None, n)| == n
    ensures forall k | 0 <= k < n :: LetterNodes(None, n)[k] == Node([LetterAt(k)], None)
  {
    if n > 0 {
      UnselectedLetters(n - 1);
      assert LetterNodes(None, n) == LetterNodes(None, n - 1) + [Node([LetterAt(n - 1)], None)];
    }
  }

  lemma {:induction false} UnselectedRing(d: nat, n: nat)
    requires 1 <= d <= 2 && n <= 26
    ensures |RingLinks(None, d, n)| == n
    ensures forall i | 0 <= i < n :: RingLinks(None, d, n)[i] == LetterLink(i, i - d)
  {
    if n > 0 {
      UnselectedRing(d, n - 1);
      assert RingLinks(None, d, n) == RingLinks(None, d, n - 1) + [LetterLink(n - 1, n - 1 - d)];
    }
  }

  /** Link i joins letter i to the letter `d` places before it, wrapping around at A. */
  predicate LetterRing(links: seq<Js.LinkSpec>, d: nat)
    requires 1 <= d <= 2
  {
    |links| == 26 && forall i | 0 <= i < 26 :: links[i] == LetterLink(i, i - d)
  }

  /**
   * The graph for an empty selection: node k is letter k in alphabet order;
   * the first 26 links join each letter to the one before it, the next 26 to
   * the one two before it.
   */
  predicate FullRing(g: Graph) {
    && |g.nodes| == 26 && (forall k | 0 <= k < 26 :: g.nodes[k] == Node([LetterAt(k)], None))
    && |g.links| == 52 && LetterRing(g.links[..26], 1) && LetterRing(g.links[26..], 2)
  }

  lemma EmptySelection(selected: Option<string>)
    requires selected == None || selected == Some("")
    ensures NetGraph(selected).Some? && FullRing(NetGraph(selected).value)
  {
    var ring1, ring2 := RingLinks(None, 1, 26), RingLinks(None, 2, 26);
    assert NetGraph(selected) == Some(Graph(LetterNodes(None, 26), ring1 + ring2));
    UnselectedLetters(26);
    UnselectedRing(1, 26);
    UnselectedRing(2, 26);
    assert (ring1 + ring2)[..26] == ring1 && (ring1 + ring2)[26..] == ring2;
  }

  // Sequence helpers.

  /** `Ids` of a concatenation. */
  lemma IdsConcat(a: seq<Node>, b: seq<Node>)
    ensures Ids(a + b) == Ids(a) + Ids(b)
  {
    forall id | id in Ids(a + b) ensures id in Ids(a) + Ids(b) {
      var i :| 0 <= i < |a + b| && (a + b)[i].id == id;
      if i >= |a| {
        assert b[i - |a|].id == id;
      }
    }
    forall id | id in Ids(a) + Ids(b) ensures id in Ids(a + b) {
      if id in Ids(a) {
        var i :| 0 <= i < |a| && a[i].id == id;
        assert (a + b)[i].id == id;
      } else {
        var j :| 0 <= j < |b| && b[j].id == id;
        assert (a + b)[|a| + j].id == id;
      }
    }
  }

  lemma DistinctConcat(a: seq<Node>, b: seq<Node>)
    requires DistinctIds(a) && DistinctIds(b)
    requires forall i, j | 0 <= i < |a| && 0 <= j < |b| :: a[i].id != b[j].id
    ensures DistinctIds(a + b)
  {
    forall i, j | 0 <= i < j < |a + b| ensures (a + b)[i].id != (a + b)[j].id {
      if j < |a| {
      } else if i >= |a| {
        assert (a + b)[i] == b[i - |a|] && (a + b)[j] == b[j - |a|];
      } else {
        assert (a + b)[j] == b[j - |a|];
      }
    }
  }

  lemma ResolvesConcat(a: seq<Js.LinkSpec>, b: seq<Js.LinkSpec>, ids: set<string>)
    requires Resolves(a, ids) && Resolves(b, ids)
    ensures Resolves(a + b, ids)
  {
    forall i | 0 <= i < |a + b| ensures (a + b)[i].source in ids && (a + b)[i].target in ids {
      if i >= |a| {
        assert (a + b)[i] == b[i - |a|];
      }
    }
  }

  lemma IdsSingleton(x: Node)
    ensures Ids([x]) == {x.id}
  {
    assert [x][0].id == x.id;
  }

  // Letters other than the selected one.

  /** Single letters before position `n`, none of them `letter`, in alphabet order. */
  predicate OrderedLetters(ns: seq<Node>, letter: Option<char>, n: nat) {
    && (forall m | 0 <= m < |ns| ::
          |ns[m].id| == 1 && 'A' as int <= ns[m].id[0] as int < 'A' as int + n && letter != Some(ns[m].id[0]))
    && (forall i, j | 0 <= i < j < |ns| :: ns[i].id[0] < ns[j].id[0])
  }

  lemma {:induction false} LetterNodesOrdered(letter: Option<char>, n: nat)
    requires n <= 26
    ensures OrderedLetters(LetterNodes(letter, n), letter, n)
  {
    if n > 0 {
      LetterNodesOrdered(letter, n - 1);
      var prev := LetterNodes(letter, n - 1);
      var c := LetterAt(n - 1);
      var ns := LetterNodes(letter, n);
      if letter != Some(c) {
        assert ns == prev + [Node([c], None)];
        forall m | 0 <= m < |ns|
          ensures |ns[m].id| == 1 && 'A' as int <= ns[m].id[0] as int < 'A' as int + n && letter != Some(ns[m].id[0])
        {
          if m < |prev| {
            assert ns[m] == prev[m];
          }
        }
        forall i, j | 0 <= i < j < |ns| ensures ns[i].id[0] < ns[j].id[0] {
          if j < |prev| {
            assert ns[i] == prev[i] && ns[j] == prev[j];
          } else {
            assert ns[i] == prev[i] && ns[j].id[0] == c;
          }
        }
      } else {
        assert ns == prev;
      }
    }
  }

  /** A letter before position `n` has a node exactly when it is not the selected one. */
  lemma {:induction false} LetterNodesPresent(letter: Option<char>, n: nat)
    requires n <= 26
    ensures forall k | 0 <= k < n :: [LetterAt(k)] in Ids(LetterNodes(letter, n)) <==> letter != Some(LetterAt(k))
  {
    if n > 0 {
      LetterNodesPresent(letter, n - 1);
      LetterNodesOrdered(letter, n - 1);
      assert OrderedLetters(LetterNodes(letter, n - 1), letter, n - 1);
      var prev := LetterNodes(letter, n - 1);
      var c := LetterAt(n - 1);
      if letter != Some(c) {
        IdsConcat(prev, [Node([c], None)]);
        IdsSingleton(Node([c], None));
        forall k | 0 <= k < n - 1 ensures [LetterAt(k)] != [c] {
          assert [LetterAt(k)][0] != [c][0];
        }
      } else {
        assert LetterNodes(letter, n) == prev;
        forall k | 0 <= k < n - 1 ensures [LetterAt(k)] in Ids(prev) <==> letter != Some(LetterAt(k)) {
        }
      }
    }
  }

  /** All letters before position `n` but the selected one. */
  lemma {:induction false} LetterNodesCount(letter: Option<char>, n: nat)
    requires n <= 26
    ensures |LetterNodes(letter, n)| == n - (if letter.Some? && 'A' as int <= letter.value as int < 'A' as int + n then 1 else 0)
  {
    if n > 0 {
      LetterNodesCount(letter, n - 1);
    }
  }

  /** The letter nodes: single letters in alphabet order, each present exactly when it is not selected. */
  lemma LetterNodesFacts(letter: Option<char>)
    ensures var ns := LetterNodes(letter, 26);
      && DistinctIds(ns)
      && (forall m | 0 <= m < |ns| :: |ns[m].id| == 1 && letter != Some(ns[m].id[0]))
      && (forall k | 0 <= k < 26 :: [LetterAt(k)] in Ids(ns) <==> letter != Some(LetterAt(k)))
      && |ns| == (if letter.Some? && 'A' <= letter.value <= 'Z' then 25 else 26)
  {
    LetterNodesOrdered(letter, 26);
    LetterNodesPresent(letter, 26);
    LetterNodesCount(letter, 26);
  }

  /** Over the whole alphabet, negative positions included: a letter is a node exactly when it is not selected. */
  lemma LetterIds(letter: Option<char>)
    ensures forall k | -26 <= k < 26 :: [LetterAt(k)] in Ids(LetterNodes(letter, 26)) <==> letter != Some(LetterAt(k))
  {
    LetterNodesFacts(letter);
    forall k | -26 <= k < 0
      ensures [LetterAt(k)] in Ids(LetterNodes(letter, 26)) <==> letter != Some(LetterAt(k))
    {
      assert LetterAt(k) == LetterAt(k + 26);
    }
  }

  /** Every letter-ring link joins two letters that are nodes, so neither is the selected one. */
  lemma {:induction false} RingLinksResolve(letter: Option<char>, d: nat, n: nat)
    requires 1 <= d <= 2 && n <= 26
    ensures Resolves(RingLinks(letter, d, n), Ids(LetterNodes(letter, 26)))
  {
    if n > 0 {
      RingLinksResolve(letter, d, n - 1);
      var prev := RingLinks(letter, d, n - 1);
      if NotSelected(letter, n - 1, n - 1 - d) {
        LetterIds(letter);
        ResolvesConcat(prev, [LetterLink(n - 1, n - 1 - d)], Ids(LetterNodes(letter, 26)));
      } else {
        assert RingLinks(letter, d, n) == prev;
      }
    }
  }

  /** Python's position for index `k` of a 26-element sequence. */
  function Wrap(k: int): nat
    requires -26 <= k < 26
  {
    if k < 0 then k + 26 else k
  }

  /** Two indices name the same letter exactly when they name the same position. */
  lemma LetterAtInjective(a: int, b: int)
    requires -26 <= a < 26 && -26 <= b < 26
    ensures LetterAt(a) == LetterAt(b) <==> Wrap(a) == Wrap(b)
  {
    assert LetterAt(a) as int == 'A' as int + Wrap(a);
    assert LetterAt(b) as int == 'A' as int + Wrap(b);
  }

  /**
   * The ring without the letter at position `s`: link i is dropped exactly
   * when i is `s` or `s + d` (wrapping), so 24 of 26 remain.
   */
  lemma {:induction false} RingCount(s: nat, d: nat, n: nat)
    requires 1 <= d <= 2 && n <= 26 && s < 26
    ensures var t := if s + d < 26 then s + d else s + d - 26;
      |RingLinks(Some(LetterAt(s)), d, n)| == n - (if s < n then 1 else 0) - (if t < n then 1 else 0)
  {
    if n > 0 {
      RingCount(s, d, n - 1);
      LetterAtInjective(s, n - 1);
      LetterAtInjective(s, n - 1 - d);
    }
  }

  // The levels of a selection.

  /** `add_select` raises exactly when some later character of the selection is not one of `nums`. */
  lemma {:induction false} ExpandDefined(prefix: string, suffix: string, external: seq<string>)
    requires |external| >= 3
    ensures Expand(prefix, suffix, external).Some? <==> forall k | 0 <= k < |suffix| :: suffix[k] in NUMS
    decreases |suffix|
  {
    if suffix != [] {
      var s0 := Index(NUMS, suffix[0]);
      if s0.Some? {
        ExpandDefined(prefix + [suffix[0]], suffix[1..], NextExternal(ChildIds(prefix), s0.value));
        assert forall k | 1 <= k < |suffix| :: suffix[k] == suffix[1..][k - 1];
      }
    }
  }

  /**
   * One level: the eight children `prefix + '1'` to `prefix + '8'`, all in
   * the colour for the depth `|prefix|`; 14 ring links among them and one
   * link per external entry, at most four.
   */
  lemma LevelShape(prefix: string, external: seq<string>)
    requires |external| >= 3
    ensures |LevelNodes(prefix)| == 8
    ensures forall k | 0 <= k < 8 ::
      LevelNodes(prefix)[k] == Node(prefix + [NUMS[k]], Some(SELECTED_COLORS[(|prefix| - 1) % 5]))
    ensures |LevelLinks(prefix, external)| == 14 + (if |external| > 3 then 4 else 3)
  {
    DigitCodes();
    forall k | 0 <= k < 8
      ensures LevelNodes(prefix)[k] == Node(prefix + [NUMS[k]], Some(SELECTED_COLORS[(|prefix| - 1) % 5]))
    {
      assert ChildIds(prefix)[k] == prefix + [DigitAt(k)];
      assert |SELECTED_COLORS| == 5;
      assert LevelColor(prefix) == SELECTED_COLORS[(|prefix| - 1) % 5];
    }
  }

  /** Moving the first character of `suffix` onto `prefix` keeps `prefix + suffix[..k]`. */
  lemma PrefixStep(prefix: string, suffix: string, k: nat)
    requires 1 <= k <= |suffix|
    ensures (prefix + [suffix[0]]) + suffix[1..][..k - 1] == prefix + suffix[..k]
  {
    assert suffix[..k] == [suffix[0]] + suffix[1..][..k - 1];
  }

  /** The levels appended for `prefix` and `suffix`: node m of level k is node m of the level for `prefix + suffix[..k]`. */
  predicate Levels(ns: seq<Node>, prefix: string, suffix: string) {
    && |ns| == 8 * (|suffix| + 1)
    && forall k, m | 0 <= k <= |suffix| && 0 <= m < 8 :: ns[8 * k + m] == LevelNodes(prefix + suffix[..k])[m]
  }

  /**
   * `add_select` adds one level per character left in the selection, plus
   * its own: the first level's links come first, then 17 per further level.
   */
  lemma {:induction false} ExpandShape(prefix: string, suffix: string, external: seq<string>)
    requires |external| >= 3 && Expand(prefix, suffix, external).Some?
    ensures Levels(Expand(prefix, suffix, external).value.0, prefix, suffix)
    ensures |Expand(prefix, suffix, external).value.1| == |LevelLinks(prefix, external)| + 17 * |suffix|
    decreases |suffix|
  {
    var ns := Expand(prefix, suffix, external).value.0;
    LevelShape(prefix, external);
    if suffix == [] {
      assert prefix + suffix[..0] == prefix;
    } else {
      var s0num := Index(NUMS, suffix[0]).value;
      var p1, ext1 := prefix + [suffix[0]], NextExternal(ChildIds(prefix), s0num);
      ExpandShape(p1, suffix[1..], ext1);
      LevelShape(p1, ext1);
      var rest := Expand(p1, suffix[1..], ext1).value.0;
      assert ns == LevelNodes(prefix) + rest;
      forall k, m | 0 <= k <= |suffix| && 0 <= m < 8 ensures ns[8 * k + m] == LevelNodes(prefix + suffix[..k])[m] {
        if k == 0 {
          assert prefix + suffix[..0] == prefix;
        } else {
          assert ns[8 * k + m] == rest[8 * (k - 1) + m];
          PrefixStep(prefix, suffix, k);
        }
      }
    }
  }

  /** Every id in `ns` extends `prefix` by at least one character. */
  predicate Below(ns: seq<Node>, prefix: string) {
    forall m | 0 <= m < |ns| :: |ns[m].id| > |prefix| && ns[m].id[..|prefix|] == prefix
  }

  lemma ResolvesWeaken(links: seq<Js.LinkSpec>, a: set<string>, b: set<string>)
    requires Resolves(links, a) && a <= b
    ensures Resolves(links, b)
  {
  }

  /** The eight children of one level have distinct ids, each `prefix` and one more character. */
  lemma LevelIds(prefix: string)
    ensures DistinctIds(LevelNodes(prefix)) && Below(LevelNodes(prefix), prefix)
    ensures forall m | 0 <= m < |LevelNodes(prefix)| :: |LevelNodes(prefix)[m].id| == |prefix| + 1
    ensures forall k | 0 <= k < 8 :: ChildIds(prefix)[k] in Ids(LevelNodes(prefix))
  {
    var ns := LevelNodes(prefix);
    assert |ns| == 8;
    forall m | 0 <= m < 8 ensures ns[m].id == prefix + [DigitAt(m)] && ns[m].id[..|prefix|] == prefix {
      assert ns[m].id == ChildIds(prefix)[m] == prefix + [DigitAt(m)];
      assert (prefix + [DigitAt(m)])[..|prefix|] == prefix;
    }
    forall i, j | 0 <= i < j < 8 ensures ns[i].id != ns[j].id {
      assert ns[i].id[|prefix|] == DigitAt(i) && ns[j].id[|prefix|] == DigitAt(j);
    }
  }

  /** The ids `add_select` appends below `prefix` are distinct and all extend `prefix`. */
  lemma {:induction false} ExpandIds(prefix: string, suffix: string, external: seq<string>)
    requires |external| >= 3 && Expand(prefix, suffix, external).Some?
    ensures DistinctIds(Expand(prefix, suffix, external).value.0)
    ensures Below(Expand(prefix, suffix, external).value.0, prefix)
    decreases |suffix|
  {
    LevelIds(prefix);
    if suffix != [] {
      var s0num := Index(NUMS, suffix[0]).value;
      var p1, ext1 := prefix + [suffix[0]], NextExternal(ChildIds(prefix), s0num);
      ExpandIds(p1, suffix[1..], ext1);
      var level, rest := LevelNodes(prefix), Expand(p1, suffix[1..], ext1).value.0;
      var ns := level + rest;
      assert Expand(prefix, suffix, external).value.0 == ns;
      forall m | 0 <= m < |rest| ensures |rest[m].id| > |prefix| + 1 && rest[m].id[..|prefix|] == prefix {
        assert rest[m].id[..|prefix|] == rest[m].id[..|p1|][..|prefix|];
      }
      DistinctConcat(level, rest);
      forall m | 0 <= m < |ns| ensures |ns[m].id| > |prefix| && ns[m].id[..|prefix|] == prefix {
        if m >= |level| {
          assert ns[m] == rest[m - |level|];
        }
      }
    }
  }

  /** The ring links inside one level end at its children. */
  lemma InnerRingResolves(c: seq<string>, d: nat, all: set<string>)
    requires |c| == 8 && 1 <= d <= 2 && forall k | 0 <= k < 8 :: c[k] in all
    ensures Resolves(InnerRing(c, d), all)
  {
    var links := InnerRing(c, d);
    forall i | 0 <= i < |links| ensures links[i].source in all && links[i].target in all {
      assert links[i] == Js.LinkSpec(c[i], if i < d then c[8 + i - d] else c[i - d], None);
    }
  }

  /** The external links of one level end at its children and at the external entries. */
  lemma ExternalResolves(c: seq<string>, external: seq<string>, all: set<string>)
    requires |c| == 8 && |external| >= 3
    requires forall k | 0 <= k < 8 :: c[k] in all
    requires forall k | 0 <= k < |external| :: external[k] in all
    ensures Resolves(ExternalLinks(c, external), all)
  {
    var links := ExternalLinks(c, external);
    assert c[0] in all && c[1] in all && c[4] in all && c[5] in all;
    assert external[0] in all && external[1] in all && external[2] in all;
    if |external| > 3 {
      assert external[3] in all;
      assert links == [Js.LinkSpec(c[0], external[0], None), Js.LinkSpec(c[1], external[1], None),
                       Js.LinkSpec(c[4], external[2], None), Js.LinkSpec(c[5], external[3], None)];
    } else {
      assert links == [Js.LinkSpec(c[0], external[0], None), Js.LinkSpec(c[1], external[1], None),
                       Js.LinkSpec(c[4], external[2], None)];
    }
  }

  /** The links of one level end at its own children or at the external entries. */
  lemma LevelResolves(prefix: string, external: seq<string>, ids: set<string>)
    requires |external| >= 3 && forall k | 0 <= k < |external| :: external[k] in ids
    ensures Resolves(LevelLinks(prefix, external), ids + Ids(LevelNodes(prefix)))
  {
    var c := ChildIds(prefix);
    var all := ids + Ids(LevelNodes(prefix));
    LevelIds(prefix);
    InnerRingResolves(c, 1, all);
    InnerRingResolves(c, 2, all);
    ExternalResolves(c, external, all);
    ResolvesConcat(InnerRing(c, 1), InnerRing(c, 2), all);
    ResolvesConcat(InnerRing(c, 1) + InnerRing(c, 2), ExternalLinks(c, external), all);
  }

  /**
   * Every link `add_select` appends ends at a node it appends or at one of
   * `external_links`, whatever set of ids holds those.
   */
  lemma {:induction false} ExpandResolves(prefix: string, suffix: string, external: seq<string>, ids: set<string>)
    requires |external| >= 3 && Expand(prefix, suffix, external).Some?
    requires forall k | 0 <= k < |external| :: external[k] in ids
    ensures Resolves(Expand(prefix, suffix, external).value.1, ids + Ids(Expand(prefix, suffix, external).value.0))
    decreases |suffix|
  {
    var level := LevelNodes(prefix);
    LevelResolves(prefix, external, ids);
    if suffix == [] {
    } else {
      var s0num := Index(NUMS, suffix[0]).value;
      var p1, ext1 := prefix + [suffix[0]], NextExternal(ChildIds(prefix), s0num);
      var ids1 := ids + Ids(level);
      LevelIds(prefix);
      ExpandResolves(p1, suffix[1..], ext1, ids1);
      var rest := Expand(p1, suffix[1..], ext1).value;
      IdsConcat(level, rest.0);
      var all := ids + Ids(level + rest.0);
      assert Expand(prefix, suffix, external).value == (level + rest.0, LevelLinks(prefix, external) + rest.1);
      ResolvesWeaken(LevelLinks(prefix, external), ids1, all);
      ResolvesWeaken(rest.1, ids1 + Ids(rest.0), all);
      ResolvesConcat(LevelLinks(prefix, external), rest.1, all);
    }
  }

  // The whole graph.

  /** `net_data` returns a graph exactly for the selections it accepts; otherwise `index` raises. */
  lemma NetGraphDefined(selected: Option<string>)
    ensures NetGraph(selected).Some? <==> Accepted(selected)
  {
    var letter := SelectedLetter(selected);
    if letter.Some? {
      var sel := selected.value;
      var i := Index(ALPHABET, sel[0]);
      if i.Some? {
        ExpandDefined([sel[0]], sel[1..], Neighbours(i.value));
        assert forall k | 1 <= k < |sel| :: sel[k] == sel[1..][k - 1];
      }
    }
  }

  /** The selected letter sits at its alphabet position `i`, which no neighbour shares. */
  lemma NeighboursPresent(letter: Option<char>, i: nat)
    requires i < 26 && letter == Some(LetterAt(i))
    ensures forall k | 0 <= k < 4 :: Neighbours(i)[k] in Ids(LetterNodes(letter, 26))
  {
    var n1 := if i + 1 < 26 then i + 1 else i - 25;
    var n2 := if i + 2 < 26 then i + 2 else i - 24;
    assert (i + 1) % 26 == n1 && (i + 2) % 26 == n2;
    assert Neighbours(i) == [[LetterAt(i - 2)], [LetterAt(i - 1)], [LetterAt(n1)], [LetterAt(n2)]];
    LetterAtInjective(i, i - 2);
    LetterAtInjective(i, i - 1);
    LetterAtInjective(i, n1);
    LetterAtInjective(i, n2);
    LetterIds(letter);
  }

  /** The position `alphabet.index` finds names the selected letter itself. */
  lemma SelectedAt(selected: Option<string>)
    requires SelectedLetter(selected).Some? && selected.value[0] in ALPHABET
    ensures Index(ALPHABET, selected.value[0]).Some?
    ensures var i := Index(ALPHABET, selected.value[0]).value;
      i < 26 && SelectedLetter(selected) == Some(LetterAt(i))
  {
    LetterCodes();
  }

  /**
   * The contract of the graph component holds for every graph `net_data`
   * returns: node ids are distinct and every link endpoint is a node id.
   */
  lemma NetGraphWellFormed(selected: Option<string>)
    requires NetGraph(selected).Some?
    ensures DistinctIds(NetGraph(selected).value.nodes)
    ensures Resolves(NetGraph(selected).value.links, Ids(NetGraph(selected).value.nodes))
  {
    var letter := SelectedLetter(selected);
    var nodes := LetterNodes(letter, 26);
    var ring1, ring2 := RingLinks(letter, 1, 26), RingLinks(letter, 2, 26);
    var ids := Ids(nodes);
    LetterNodesFacts(letter);
    RingLinksResolve(letter, 1, 26);
    RingLinksResolve(letter, 2, 26);
    ResolvesConcat(ring1, ring2, ids);
    if letter.Some? {
      var c := letter.value;
      SelectedAt(selected);
      var i := Index(ALPHABET, c).value;
      var ext := Neighbours(i);
      var more := Expand([c], selected.value[1..], ext).value;
      assert NetGraph(selected).value == Graph(nodes + more.0, ring1 + ring2 + more.1);
      ExpandIds([c], selected.value[1..], ext);
      DistinctConcat(nodes, more.0);
      NeighboursPresent(letter, i);
      ExpandResolves([c], selected.value[1..], ext, ids);
      IdsConcat(nodes, more.0);
      ResolvesWeaken(ring1 + ring2, ids, ids + Ids(more.0));
      ResolvesConcat(ring1 + ring2, more.1, ids + Ids(more.0));
    }
  }

  /** The selected letter is neither a node nor the end of any link. */
  lemma SelectionHidden(selected: Option<string>)
    requires Accepted(selected) && SelectedLetter(selected).Some?
    ensures NetGraph(selected).Some?
    ensures var g := NetGraph(selected).value; var hidden := [selected.value[0]];
      && hidden !in Ids(g.nodes)
      && forall k | 0 <= k < |g.links| :: g.links[k].source != hidden && g.links[k].target != hidden
  {
    NetGraphDefined(selected);
    var letter := SelectedLetter(selected);
    var c := letter.value;
    var nodes := LetterNodes(letter, 26);
    var i := Index(ALPHABET, c).value;
    var more := Expand([c], selected.value[1..], Neighbours(i)).value;
    var g := NetGraph(selected).value;
    assert g.nodes == nodes + more.0;
    LetterNodesFacts(letter);
    ExpandIds([c], selected.value[1..], Neighbours(i));
    IdsConcat(nodes, more.0);
    assert [c] !in Ids(nodes) by {
      forall m | 0 <= m < |nodes| ensures nodes[m].id != [c] {
        assert nodes[m].id[0] != c;
      }
    }
    assert [c] !in Ids(more.0) by {
      forall m | 0 <= m < |more.0| ensures more.0[m].id != [c] {
      }
    }
    NetGraphWellFormed(selected);
  }

  /**
   * A selection of n characters yields 25 letters and then n levels of eight
   * children, level k below the first k + 1 characters; 48 ring links, 18 for
   * the first level (four neighbours) and 17 for every deeper one.
   */
  lemma SelectionShape(selected: Option<string>)
    requires Accepted(selected) && SelectedLetter(selected).Some?
    ensures NetGraph(selected).Some?
    ensures var g := NetGraph(selected).value; var sel := selected.value;
      && |g.nodes| == 25 + 8 * |sel|
      && g.nodes[..25] == LetterNodes(Some(sel[0]), 26)
      && Levels(g.nodes[25..], [sel[0]], sel[1..])
      && |g.links| == 48 + 18 + 17 * (|sel| - 1)
  {
    var letter := SelectedLetter(selected);
    var sel := selected.value;
    var c := letter.value;
    var nodes := LetterNodes(letter, 26);
    NetGraphDefined(selected);
    SelectedAt(selected);
    var i := Index(ALPHABET, c).value;
    var ext := Neighbours(i);
    var more := Expand([c], sel[1..], ext).value;
    var g := NetGraph(selected).value;
    assert g == Graph(nodes + more.0, RingLinks(letter, 1, 26) + RingLinks(letter, 2, 26) + more.1);
    LetterNodesFacts(letter);
    RingCount(i, 1, 26);
    RingCount(i, 2, 26);
    ExpandShape([c], sel[1..], ext);
    LevelShape([c], ext);
    assert g.nodes[..25] == nodes;
    assert g.nodes[25..] == more.0;
  }
}
