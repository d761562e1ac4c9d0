# dash-network: the graph state synchronizer and the demo graph generator

This project models the two pieces of logic in the Dash network component.

- `NetworkD3` (src/lib/d3/network.js) is the object that backs a force-directed
  graph. Each time it is given a figure, `update`:
  - fills in the missing size settings;
  - asks the shallow change detector `diff` what differs from the figure it
    holds, and stops if nothing does;
  - reconciles its live node array in place: survivors keep their identity
    and physics state, new nodes are appended by reference, and stale ones
    are spliced out;
  - rebuilds its link array from the new link list;
  - recomputes the link widths, the node sizes `_r` and the link distances;
  - sets the repulsion range and restarts the simulation.

  The drag handlers pin and unpin a node and raise or lower the simulation's
  target temperature.
- `net_data` (usage.py) builds the graph of the demo app for a selection
  string. The 26 letters form a ring, and the selected letter is taken out.
  Each further character of the selection opens one more level of eight
  children, linked to each other and to the level above.

Modules:

- `Wrappers`: `Option`, which stands for JavaScript's `undefined` and Python's `None`.
- `Js`: JSON images of values, truthiness, the `||` default idiom and `String.prototype.substr`.
- `ShallowDiff`: `diff` over key/value maps.
- `NetworkData`: the `Particle` node class, link entries, and the sequence
  functions that specify reconciliation and size derivation.
- `Network`: figures, their change classification, and the `NetworkD3` class.
- `Usage`: `net_data` and its helpers.

The mutating parts are imperative Dafny:

- `NetworkD3` is a class whose fields are `figure`, `nodeData`, `linkData`,
  the drawn link widths, `alpha`, `alphaTarget` and `distanceMax`.
- Node objects are `Particle` instances, shared by reference between the
  caller's data, the live array and the link entries.
- `diff` and the node, link and size passes of `update` are loops with their
  invariants. The link-width pass is a sequence comprehension. Each pass is
  proved against a specification function: `ShallowDiff.ChangedKeys`,
  `NetworkData.Reconciled`, `NetworkData.Find` and `NetworkData.Scaled`.
- `add_select` is a recursive method that appends to the node and link lists.
  It is proved against the function `Usage.Expand`.

## Model

| member | source | states |
|---|---|---|
| Network.DefaultsFilled | src/lib/d3/network.js:10-17 | each filled size field is the supplied value when that is truthy, else 500, 500, 4, 20, 10 or 20; `data` and `dataVersion` pass through; so no filled field is falsy |
| Network.RefillUnchanged | src/lib/d3/network.js:87-104 | filling is idempotent: giving a stored figure back to `update` fills it to itself |
| ShallowDiff.Diff | src/lib/d3/network.js:298-323 | the loop over the new object's keys returns `false` (None) exactly when no key changed, and otherwise the set of changed keys |
| ShallowDiff.VersionKeysNeverReported | src/lib/d3/network.js:303 | a key ending in "Version" is never reported |
| ShallowDiff.OtherKeysConsidered | src/lib/d3/network.js:302-320 | any other key is reported iff the new object has it and its comparison says it changed |
| ShallowDiff.TokenDecides | src/lib/d3/network.js:305-311 | for an object value with a truthy `<key>Version`, the key is reported iff the two tokens differ, whatever the contents |
| ShallowDiff.StructuralFallback | src/lib/d3/network.js:312-315 | without a truthy token, an object key is reported iff the JSON images differ |
| ShallowDiff.DiffOfSelfIsFalse | src/lib/d3/network.js:312-322 | comparing an object with itself reports nothing, so `diff` returns `false` |
| ShallowDiff.DroppedKeyNotReported | src/lib/d3/network.js:302 | a key only the old object has is never reported |
| Js.SubstrSuffixIsEndsWith | src/lib/d3/network.js:303 | the `substr` skip test holds exactly when the key ends with the suffix, including keys shorter than "Version" |
| Network.FigureEntries | src/lib/d3/network.js:95-104 | the stored figure object has exactly the six size keys, `data` and `dataVersion`, each with its value |
| Network.KeyEndings | src/lib/d3/network.js:303 | of the figure keys only `dataVersion` ends in "Version" |
| Network.NumberKeyReported | src/lib/d3/network.js:317-320 | a number-valued key is reported iff the old value is missing or different |
| Network.DataKeyReported | src/lib/d3/network.js:305-315 | `data` is reported iff there was no figure, or the truthy `dataVersion` tokens differ, or without a token the JSON images differ |
| Network.DiffOfFigures | src/lib/d3/network.js:106 | `diff` of two figures reports exactly the fields whose values differ, field by field |
| Network.EmptyReport | src/lib/d3/network.js:322 | a report is empty exactly when no field differs |
| Network.DiffFigures | src/lib/d3/network.js:106-107 | the call of `diff` in `update` returns no change iff no field differs, and otherwise reports exactly the differing fields |
| Network.FirstUpdateReportsEverything | src/lib/d3/network.js:59 | from the initial `{}` every non-version key is reported |
| Network.SameFigureNoChange | src/lib/d3/network.js:106-107 | updating with the figure already held reports no change |
| Network.VersionTokenDecidesData | src/lib/d3/network.js:306-310 | with a truthy `dataVersion`, `data` is reported iff the version token changed, regardless of the data's contents |
| Network.NetworkD3.constructor | src/lib/d3/network.js:59-75 | starts from the empty figure and arrays and performs a first `update`. The live array is then the input node list itself, link i resolves data link i's endpoints, every node has the `_r` derived from the filled settings, every link width is `linkWidth`, the caller's `radius`/`color` are untouched, alpha is 0.5, `alphaTarget` 0 and the repulsion range is set |
| Network.NetworkD3.Update | src/lib/d3/network.js:82-239 | requires unique node ids and links that name node ids. Stores the filled figure. An unchanged figure changes nothing else, and no node object changes. Otherwise alpha is 0.5 and `distanceMax` is `0.25*min(width,height)` exactly when the size changed. New data reconciles the nodes (same ids, no duplicates, survivors carry the new `radius`/`color`) and rebuilds one link entry per data link. `_r` is rescaled only on new data or a new `nodeRadius`. Link widths are rescaled only on new data, `linkWidth` or `maxLinkWidth`. A node dropped on new data keeps its `radius`, `color` and `_r`. Every link entry has both endpoints resolved. Position, velocity and pin of every node are untouched by the component's own statements. A node object that was not live keeps its `radius` and `color`. One that is not live afterwards keeps its `_r`. This covers caller objects such as a fresh copy of a live id, which the stored figure keeps and the next `diff` reads. So every caller node's attributes are unchanged |
| Network.NetworkD3.ApplyChange | src/lib/d3/network.js:109-239 | the same outcome, classified on the reported keys: size from width/height, data from `data`, link widths from `linkWidth`/`maxLinkWidth`, radius from `nodeRadius` only. On a data change a dropped node keeps its `radius`, `color` and `_r`. A node object that was not live keeps its `radius` and `color`, and one that is not live afterwards keeps its `_r` |
| Network.NetworkD3.RefreshAll | src/lib/d3/network.js:128-239 | on new data: reconciled nodes and rebuilt links, every `_r` and every link width derived again, and alpha 0.5. A dropped node keeps its `radius`, `color` and `_r`. A node object that was not live keeps its `radius` and `color`, and one that is not live afterwards keeps its `_r` |
| Network.NetworkD3.Rederive | src/lib/d3/network.js:114-121 | the size-dependent tail: `distanceMax` when resized, link widths when asked, `_r` when asked, and alpha 0.5. Nothing the caller or the simulation owns changes |
| Network.NetworkD3.RefreshData | src/lib/d3/network.js:128-174 | nodes become `Reconciled(old, new)` with the new id set and distinct ids. The live nodes are old or new objects, and nothing a node's motion depends on changes. Link i resolves data link i's endpoints to the live node with that id, and every endpoint resolves, since every link names an input id. A node dropped from the live array keeps its `radius`, `color` and `_r` |
| Network.NetworkD3.RebuildLinks | src/lib/d3/network.js:162-174 | entry i is rebuilt from data link i through the id map, with index i, and the old tail beyond the new count is cut |
| Network.NetworkD3.ScaleLinkWidths | src/lib/d3/network.js:212-219 | every drawn link gets `(width*maxLinkWidth/maxFoundWidth) \|\| linkWidth` over the link entries |
| Network.NetworkD3.ScaleRadii | src/lib/d3/network.js:221-230 | every live node gets `_r = (radius*maxRadius/maxFoundRadius) \|\| nodeRadius`, with `maxFoundRadius` the largest `radius \|\| 0` or 1 when that is 0. Only `_r` changes |
| Network.NetworkD3.DistanceOfSized | src/lib/d3/network.js:221-234 | once `_r` is derived (as `update` leaves it after new data or a new `nodeRadius`), a link's target distance is the sum of its endpoints' scaled radii; with positive settings and no negative radius it is positive and at most twice the larger of `maxRadius` and `nodeRadius` |
| NetworkData.ScaledPositive | src/lib/d3/network.js:221-229 | with positive settings and a non-negative raw radius, the derived `_r` is positive and at most the larger of `maxRadius` and `nodeRadius` |
| Network.EntriesResolve | src/lib/d3/network.js:162-168 | entries built through the final id map are the entries built by finding each id in the live list, and when every link names an input id each endpoint is a live node |
| Network.NetworkD3.DragStarted | src/lib/d3/network.js:264-270 | `alphaTarget` becomes 0.3 unless a drag is active, and the node is pinned at its position |
| Network.NetworkD3.Dragged | src/lib/d3/network.js:272-275 | the pin follows the cursor |
| Network.NetworkD3.DragEnded | src/lib/d3/network.js:277-283 | `alphaTarget` becomes 0 unless another drag is active, and the pin is cleared |
| Network.ReconcileNodes | src/lib/d3/network.js:132-156 | the three passes leave `Reconciled(live, new)`, whose ids are the new ids without duplicates. The id map indexes exactly the result. Survivors carry the new attributes; nodes whose id is gone keep theirs; no motion field changes |
| Network.IndexNodes | src/lib/d3/network.js:132-136 | the id map binds each live id to its node |
| Network.MergeNodes | src/lib/d3/network.js:137-149 | known ids get the new `radius`/`color` on the live object. Unknown input nodes are appended by reference, in input order, and the map indexes the grown list |
| Network.RefreshNode | src/lib/d3/network.js:140-144 | one known id: its live object takes the input's `radius` and `color`, and no other node's attributes change |
| Network.AppendNode | src/lib/d3/network.js:145-148 | one unknown id: the input object itself is appended and indexed |
| Network.RemoveStale | src/lib/d3/network.js:150-156 | the reverse splice pass leaves exactly the nodes whose id is wanted, in their order, and removes their ids from the map |
| Network.StaleRemoved | src/lib/d3/network.js:150-156 | the grown list minus stale nodes is `Reconciled(old, new)`: old survivors in old order, then the new nodes in input order |
| NetworkData.ReconciledIds | src/lib/d3/network.js:137-156 | the reconciled list has exactly the new ids |
| NetworkData.ReconciledDistinct | src/lib/d3/network.js:137-156 | the reconciled list has no id twice |
| NetworkData.ReconciledMembers | src/lib/d3/network.js:140-153 | an old node whose id is wanted survives as the same object. Every live node is an old or a new object, and a node with an unseen id is appended |
| NetworkData.FindLive | src/lib/d3/network.js:165-166 | a link endpoint resolves iff its id is live, and then to the live node with that id |
| NetworkData.LookupIsFind | src/lib/d3/network.js:165-166 | looking up the final id map is finding the id in the live list |
| NetworkData.MaxFound | src/lib/d3/network.js:222-225 | the running `Math.max(found, v \|\| 0)` loop computes `MaxOf` |
| NetworkData.MaxOfIsLargest | src/lib/d3/network.js:222-226 | the maximum is non-negative, bounds every `v \|\| 0`, and is 0 or attained |
| NetworkData.ScaledIsLinear | src/lib/d3/network.js:228 | a positive radius is scaled linearly by `maxRadius/maxFound` |
| NetworkData.MissingGetsDefault | src/lib/d3/network.js:228 | a missing or zero radius gets `nodeRadius` |
| NetworkData.LargestGetsMax | src/lib/d3/network.js:222-228 | when some radius is positive, the node with the largest one gets exactly `maxRadius` |
| NetworkData.ScaledAtMostMax | src/lib/d3/network.js:222-228 | with positive `maxRadius`, no positive radius is scaled above it |
| NetworkData.EveryLinkGetsDefaultWidth | src/lib/d3/network.js:164-168 | link entries carry no `width`, so every drawn link gets `linkWidth` |
| Usage.Index | usage.py:44 | `s.index(c)` is defined iff `c` occurs in `s`, and is then its first position |
| Usage.NetData | usage.py:17-56 | returns the value `NetGraph(selected)`. It is defined iff the selection is accepted, and then its node ids are distinct and every link endpoint is a node id |
| Usage.AddSelect | usage.py:31-46 | the recursive appends fail iff some later character is not a digit 1-8, and otherwise extend both lists by exactly `Expand`'s levels |
| Usage.AppendLevel | usage.py:33-42 | one level appends its eight nodes and its ring and external links |
| Usage.EmptySelection | usage.py:18-29 | with no or an empty selection there are 26 nodes in alphabet order and 52 links: i to i-1 then i to i-2, with wraparound |
| Usage.UnselectedLetters | usage.py:26 | with no selection, node k is letter k |
| Usage.UnselectedRing | usage.py:28-29 | with no selection, ring link i joins letter i to letter i-d |
| Usage.LetterNodesOrdered | usage.py:26 | the top-level nodes are single letters in alphabet order, none of them the selected one |
| Usage.LetterNodesPresent | usage.py:26 | a letter is a node iff it is not the selected one |
| Usage.LetterNodesCount | usage.py:26 | one node per letter, less one when the selected letter is a letter |
| Usage.LetterNodesFacts | usage.py:18-26 | the letter nodes have distinct one-character ids, all unselected, 25 of them for a selected letter and 26 otherwise |
| Usage.RingLinksResolve | usage.py:23-29 | every letter-ring link joins two letter nodes |
| Usage.RingCount | usage.py:28-29 | with letter s selected, exactly the links i = s and i = s + d (wrapping) are dropped, so 24 of 26 remain in each ring |
| Usage.ExpandDefined | usage.py:43-46 | the levels are built iff every later character is one of '12345678'; otherwise `nums.index` raises |
| Usage.LevelShape | usage.py:33-42 | each level appends the 8 nodes `prefix+'1'..prefix+'8'`, coloured `selected_colors[(len(prefix)-1) % 5]`, and 14 ring links plus one per external entry, at most 4 |
| Usage.ExpandShape | usage.py:31-46 | one level per character: level k is the level of `prefix + suffix[:k]`, and the link count is the first level's plus 17 per deeper level |
| Usage.LevelIds | usage.py:33-35 | a level's eight ids are distinct and extend the prefix by one character |
| Usage.ExpandIds | usage.py:33-46 | all appended ids are distinct and extend the prefix |
| Usage.InnerRingResolves | usage.py:36-37 | the ring links of a level join its own children |
| Usage.ExternalResolves | usage.py:38-42 | the external links of a level join its children to the external entries |
| Usage.LevelResolves | usage.py:36-42 | a level's links end at its children or at the external entries |
| Usage.ExpandResolves | usage.py:36-46 | every appended link ends at an appended node or at an entry of `external_links` |
| Usage.NeighboursPresent | usage.py:50 | the four neighbours of the selected letter are letter nodes |
| Usage.SelectedAt | usage.py:49 | the position `alphabet.index` finds is the selected letter |
| Usage.NetGraphDefined | usage.py:44-51 | `net_data` returns iff the selection is empty or a capital letter followed by digits 1-8 |
| Usage.NetGraphWellFormed | usage.py:26-51 | every returned graph has distinct node ids, and every link endpoint is a node id |
| Usage.SelectionHidden | usage.py:23-29 | the selected letter is neither a node nor the end of any link |
| Usage.SelectionShape | usage.py:26-51 | a selection of n characters gives 25 letter nodes, then n levels of eight, level k below the first k+1 characters. There are 48 ring links, 18 for the first level and 17 for each deeper one |

## Left out

- The d3 force simulation itself is not modelled: integration, alpha decay,
  the tick scheduler, and the `forceCenter`/`forceLink`/`forceManyBody`
  physics. `alpha`, `alphaTarget` and `distanceMax` are plain fields. The
  link force is modelled only by its distance function `LinkDistance`.
- The repulsion strength `REPULSION * _r / n^0.3` is floating-point `pow` in a
  foreign library, and is not modelled.
- SVG and DOM work is not modelled: the view box and size attributes, the
  data joins, styling, the tick's coordinate updates and the colour scale.
  So the join key `d.source + '>>' + d.source` of src/lib/d3/network.js:179
  is not modelled either. It names the source twice and turns node objects
  into strings.
- `wrappedClick`, `d3.event.stopPropagation` and the cursor are event
  plumbing. `active` and the cursor position are parameters of the drag
  methods.
- The React wrapper (src/lib/components/Network.react.js) is not part of this
  model. Its documented contract (node ids are unique, links name existing
  node ids, lines 68 and 77) is the precondition `DistinctIds` and
  `LinksNameNodes` of `Update` and the constructor. A link naming an unknown
  id is outside the model: the source stores `undefined` as its endpoint
  (src/lib/d3/network.js:165-166), and d3's link force then throws inside
  `update` (line 232), after nodes, links and `_r` were rewritten and before
  the restart.
- The simulation's own work when it is handed the node array
  (`simulation.nodes`, src/lib/d3/network.js:157) is not modelled: d3 sets
  each node's `index`, places new nodes, zeroes their velocity and snaps a
  pinned node to its pin. The position, velocity and pin guarantees of
  `Update` cover only the component's own statements.
- The Dash app and callbacks (usage.py:58-79) are server plumbing and are not
  modelled.
- Numbers are reals. NaN, infinities and rounding are not modelled, so an
  input whose `radius * maxRadius` is NaN is not covered.
- Network.NetworkD3.RebuildLinks: the link entry's `index` is a natural
  number. The loop in the source stores the string key that `for ... in`
  yields. `d3.forceLink(self.linkData)` (src/lib/d3/network.js:232) then
  overwrites each entry's `index` with its numeric position. So once `update`
  has returned, the source holds the same number as the model.
- NetworkData.Particle: a node's `id` is a `const`, so ids are fixed per
  object. In JavaScript `id` is an ordinary property that a caller could reset
  in place, and the next `nodeMap` would index the node under the new id.
- Network.ReconcileNodes: the live array is a `seq` of node references. The
  method returns it and `update` assigns it back. The particles
  themselves are changed in place. `nodeMap` is a Dafny map, so lookups of
  keys such as `constructor`, which the source's plain object inherits from
  `Object.prototype`, are not modelled.
- Network.NetworkD3.Rederive sets `distanceMax` together with the other
  derived values after the data pass, while the source sets it before. The
  two touch disjoint state, so the final state is the same.
- ShallowDiff.Diff: `JSON.stringify` equality is modelled as equality of JSON
  images. The image of the old `data` is read from its node objects as they
  are at the call. Key order and the string form are not modelled.
- Network.GraphData: the `nodes` and `links` arrays and the link objects of
  `data` are values. A caller who pushes onto those arrays or edits a link in
  place, with no truthy `dataVersion`, makes the source compare the same
  object with itself, so `diff` reports nothing and `update` stops. The model's
  old figure keeps the old arrays, so it reports `data` and reconciles.
- Js.NodeJson: a pin cleared with `null` (src/lib/d3/network.js:281-282) is
  `None`, which the JSON image shows as absent. `JSON.stringify` writes
  `"fx":null` instead. d3 treats the two alike, and only the structural
  comparison of `diff` could tell them apart.
- Usage.AddSelect: the enclosing Python lists that `add_select` extends are
  passed in and returned as `seq` values, so aliasing of those lists is not
  modelled.
- Python's `ValueError` from `alphabet.index` or `nums.index` is modelled as
  the result None. It is not an exception.
- `alphabet[k]` and `nums[k]` are computed as code points (`LetterAt`,
  `DigitAt`). The lemmas `LetterCodes` and `DigitCodes` prove that they agree
  with the two strings.
