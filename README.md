# flowchart.js model

This project is a Dafny model of the model-and-geometry core of the flowchart editor in `src/js/flowchart.js`, with the DOM and jQuery work removed. The model proves properties about it. It covers five parts:

- **Element normalisation** (module `ElementProps`, file `element_props.dfy`). This is how a raw element descriptor becomes element data:
  - the id is checked;
  - the `order` is taken from a counter;
  - a `"node.port"` reference is split into a node and a port;
  - unknown keys are folded into `data`;
  - a node's position is kept or reset.
- **The port model** (module `Ports`, file `ports.dfy`):
  - `FlowChartElementPort` normalises a port's side, direction, space, link count and free flag;
  - repeatable ("rest") port templates such as `in*` map port names to indices and back;
  - concrete rest ports are materialised on demand and cached in a small class;
  - `createPortsMap` builds the per-side port lists and the `$all`, `$list`, `$free` and `$rest` indexes;
  - `getPortByName` of an element type looks a port up.
- **Bounds and the graph store.**
  - Module `Bounds` (file `bounds.dfy`) models:
    - how `getBounds` derives the extra fields;
    - the field-by-field update of `setBounds`;
    - the growth of the canvas;
    - the edge-inclusive rectangle test.
  - Module `Elements` (file `element.dfy`) models `FlowChartElement`. It is a class whose fields the chart updates in place: bounds and cache, graph links, and rest-port bookkeeping, including `getRelationsByPort` and `getRestPorts`.
  - Module `Chart` (file `chart.dfy`) models `FlowChart` as a class. It holds the element table and the node and relation lists, and provides:
    - the rebuild `_initElementsRelation`;
    - storing an element;
    - `exportData`;
    - `_getPartialRenderMap`;
    - `delete` with its cascade.
- **The layout engine** (module `Layout`, file `layout.dfy`).
  - It works on a value snapshot of the rebuilt graph. Nodes are addressed by index, and `parents` and `children` are index lists.
  - It covers `getDepth`, `getDeptSize` and `getSiblingIndex`.
  - It covers the auto-layout block of `render`:
    - depth buckets;
    - end-type buckets;
    - centred packing;
    - the overlap loop, which runs in place on an array of boxes.
  - It covers `layoutNode`, which places a node from a centre point, from a direction anchor, from its parents' union plus its sibling index, or below the canvas, and then snaps it to the grid.
- **Route geometry** (module `Route`, file `route.dfy`). This is `drawRelationLine` for the polyline, straight, bessel and besselArc shapes:
  - the `pathD` command array;
  - the dash pattern;
  - the control points;
  - the shape offsets stored back on the relation;
  - the label centre.
- Module `Base` (file `base.dfy`) holds `Option`/`Result`, small sequence helpers, and the stable sort by `order` used by `FlowChartElement.sort` and `exportData`.

## How JavaScript is modelled

- A value that is not a number (unset, or NaN after arithmetic on a missing value) is `None`. Every comparison that involves it is false, as in JavaScript.
- `Math.floor` is `.Floor`. `Math.round(x)` is `(x + 0.5).Floor`.
- Layout coordinates are reals, because the packing divides by 2 without flooring. Route points are integers, because `renderRelation` hands them over already floored.
- The memo fields `_depth`, `_depthSize` and `_siblingIndex` are taken as cleared, so each is its plain recursive definition.
- `getDepth` follows `parents[0]` with no cycle check, so the source overflows its stack on a first-parent cycle. The model asks for an acyclic first-parent chain, witnessed by a ghost rank that decreases along it.
- The element table is a plain object, so `$.each` visits its keys in the object's own key order. Ids that are array indices (canonical decimal integers below 2^32 - 1) come first, in ascending value, and then the other ids in the order they were added. The model records this order beside the table.
- An id of "" can be stored, because the id rule passes an id without `:` or `.` through unchanged. `getElement("")` returns null, though, so every delete skips such an element, and the model does the same.
- Arrays that the source mutates while iterating are modelled as they behave. In `delete`, a `forEach` runs over an array that the nested call splices and then replaces; the model captures this, and it is the subject of the finding below.

## Where the code and its documentation differ

The model follows the code in each case:

- End-type nodes: every end-type node gets a new bucket of its own after the depth buckets. The bucket index is `depthsMap.length`, re-read on every iteration. They do not share one final bucket.
- `getElementData` copies values of the `int` and `object` property types raw. It does not coerce them.
- The spacing between subtrees in `getDeptSize`, and in the render block, is always `vertSpace`, whatever the layout direction.
- A relation's `toIndex` is taken from the length of the *source* node's `toRels`, not the target's.
- The polyline control point is `floor(floor(mid) + t * w / 2)` with `t` clamped to -1..1. It lies in the bounding box of the two ends *or one unit below it*. `Route.ElbowBelowBox` exhibits an input where it falls outside, and `Route.PolylineInBox` states the bound that holds.
- After a rebuild the chart's lists are fully determined by the element table, so rebuilding twice gives identical lists. `Linked` states each node and relation list as a function of the table: the sorted node and relation lists, and every node's four link lists.

## Model

| member | source | states |
|---|---|---|
| Base.SortBy | src/js/flowchart.js:824-828 | sorting by order keeps every element, with its multiplicity |
| Base.SortBySorted | src/js/flowchart.js:824-828 | the sorted list is ordered by the key and is a permutation of the input |
| Base.SortByStable | src/js/flowchart.js:824-828 | elements with equal keys keep their input order, as the ECMAScript 2019 stable sort guarantees |
| Base.FirstIndex | src/js/flowchart.js:1734-1736 | findIndex returns the first matching position, or -1 exactly when nothing matches |
| Base.AddKeyOrdered | src/js/flowchart.js:3855 | adding a key to an object keeps its key order, array indices first in ascending value and then the others, and a key that is not an array index goes last |
| Base.AddKeyMembers | src/js/flowchart.js:3855 | a new key joins the keys exactly once |
| Base.InsertRankedOrdered | src/js/flowchart.js:3855 | inserting by rank keeps a sequence ranked: the elements that pass the test first, those in ascending key |
| Base.FilterKeyOrdered | src/js/flowchart.js:3959 | removing keys keeps the rest in key order |
| ElementProps.ResolveId | src/js/flowchart.js:133-144 | An id containing `:` fails (checked first), then one containing `.`; any other given id comes back unchanged, and a missing id is replaced by a fresh one. |
| ElementProps.AssignOrder | src/js/flowchart.js:152-157 | A given order is kept and the counter is left alone; a missing order is the counter, plus 10000 for a relation, and the counter moves on by one. |
| ElementProps.OrdersFromCounterIncrease | src/js/flowchart.js:152-157 | Of two elements of one kind that both take their order from the counter, the later one gets the larger order. |
| ElementProps.SplitJoinDot | src/js/flowchart.js:198-221 | `split('.')` undoes joining dot-free parts with `.`. |
| ElementProps.JoinSplitDot | src/js/flowchart.js:198-221 | Joining with `.` undoes `split('.')`. |
| ElementProps.EndpointNode | src/js/flowchart.js:198-209 | The `from`/`to` rule keeps the text before the first `.`: the result has no dot, is a prefix of a non-empty reference, equals a dot-free reference, and an empty or missing reference passes through. |
| ElementProps.EndpointPort | src/js/flowchart.js:210-221 | An explicit non-empty port wins; otherwise the port comes from the raw reference and never contains a dot. |
| ElementProps.EndpointRoundTrip | src/js/flowchart.js:198-221 | A reference written `node.port` is split back into exactly that node and that port, when no port is given or the given port is empty. |
| ElementProps.BareEndpoint | src/js/flowchart.js:198-221 | A bare node id keeps its node and carries no port. |
| ElementProps.FoldData | src/js/flowchart.js:158-166 | The data bag has the keys of the raw `data` object plus every raw key that is not a live property of the type; raw values win over `data` values. |
| ElementProps.NodePositionRule | src/js/flowchart.js:241-256 | A position is kept and marked custom exactly when it pins both corner coordinates, both centre coordinates, or a known direction with a `from`; anything else becomes the empty position. |
| ElementProps.Normalize | src/js/flowchart.js:2090-2104 | getElementData fails exactly on an illegal id, and then the counter is not moved. On success it keeps the given id or takes the fresh one. The order and the next counter value are those of the `order` rule: the counter moves exactly when no order was given. The data bag keys are as FoldData states. The element data is what Build makes of the descriptor under that id. |
| ElementProps.Build | src/js/flowchart.js:2090-2104 | Each field of the element data comes from its rule, once the id is settled. The type name and kind are the type's. The order is the `order` rule's. The text follows the `text` rule, and a relation's `hideArrow` the `hideArrow` rule; a node has no `hideArrow`. The data is FoldData of the data bag and the raw keys, so raw values win. The copied props are exactly the raw keys the type's table marks as copied, with their raw values. For a relation, the ends are the node parts of `from`/`to`, the ports follow the port rule (an explicit port first, otherwise the part after the dot), and the shape is the given one. Its position follows the relation position rule: custom exactly when a shape is given, and then the raw position with its custom mark set to manual unless it already had one. A node has the position rule's position, and no ends, ports or shape. |
| ElementProps.RelationPositionRule | src/js/flowchart.js:187-194 | A relation's position is custom exactly when a shape is given; without one it is empty. With one it is the raw position with every other field kept, its custom mark being the raw mark when there is one and manual otherwise. |
| ElementProps.PropsOf | src/js/flowchart.js:2225-2240 | A type's prop table is the basic node or relation table overlaid by the type's own props: an own prop always wins, every other entry is the basic one, and no other key appears. |
| ElementProps.TextRule | src/js/flowchart.js:146-151 | A given non-null text is turned into a string. A `null` text falls back to the type's text, and a text still missing or `null` becomes the empty string. A missing text is the empty string. |
| ElementProps.HideArrowRule | src/js/flowchart.js:195-200 | A given `hideArrow` is read for truthiness. A missing one hides the arrow exactly when `arrowSize` is falsy. |
| Ports.MaxRestCount | src/js/flowchart.js:457-466 | `rest === true` allows Number.MAX_SAFE_INTEGER ports; a numeric `rest` allows that many; anything else allows 0. |
| Ports.ResolveSide | src/js/flowchart.js:362-368 | The side argument wins when non-empty, then the raw side; a value that is not a side name gives `right`. |
| Ports.ResolveDirection | src/js/flowchart.js:389 | `'out'` and `'in'` are kept; every other direction becomes `in-out`. |
| Ports.NewPort | src/js/flowchart.js:353-455 | The constructor keeps the name and the rest setting and resolves side and direction. A rest template holds one link and is not free. Otherwise the port is free unless `free === false`. It holds the given link count when that is at least 1, and one link when the count is missing, 0 or negative. Space, restMinIndex and restInitialCount default to 1. |
| Ports.InstanceShape | src/js/flowchart.js:508-528 | The concrete port of a rest template is the template renamed, with `rest` off, no index, one link at most, and not free. |
| Ports.ParseDecimal | src/js/flowchart.js:479-488 | Reading back the decimal digits of n gives n. |
| Ports.RestPortIndex | src/js/flowchart.js:479-488 | A matching name has an index exactly when the template name has a `*`. |
| Ports.RestPortNameIndex | src/js/flowchart.js:479-499 | The name generated for index i matches the template exactly when `i + restMinIndex` is not negative, and then reads back as i. |
| Ports.RestTemplate.GetRestPortByName | src/js/flowchart.js:508-528 | A non-matching name gives nothing and leaves the cache alone. A matching name gives the concrete port of that name, which is cached on first use; an already cached port is returned as cached. |
| Ports.RestTemplate.GetRestPortAt | src/js/flowchart.js:501-506 | A rest template gives the concrete port for the name of index i whenever that name matches. When it gives a port, the cache is the old cache with exactly that name bound to it. When it gives nothing the cache is unchanged, and a port that is not a rest template always gives nothing. |
| Ports.RestPortCached | src/js/flowchart.js:508-528 | Asking twice for one name gives the same port, with `rest` off, one link and not free, and leaves exactly one cache entry for it. |
| Ports.CountNames | src/js/flowchart.js:554-559 | A count n gives n names (none when n is negative), the i-th being the side's name followed by i + 1. |
| Ports.SideSpecs | src/js/flowchart.js:553-563 | A number on a side, whether given as a count or as a lone numeric entry, becomes the names `side1` to `side<n>` for its floor n, and nothing when below 1. A side given as "" is falsy and has no entries. Any other single entry becomes a one-entry list, and a list is kept as given. |
| Ports.SidePorts | src/js/flowchart.js:566-567 | Each port of a side knows that side and its position in the side's list. |
| Ports.IndexByName | src/js/flowchart.js:569 | `$all` holds every named port under its own name. |
| Ports.IndexByNameMember | src/js/flowchart.js:569 | Every port in `$all` is one of the listed ports. |
| Ports.IndexByNameLast | src/js/flowchart.js:569 | Of several ports with one name, `$all` keeps the last. |
| Ports.SideLists | src/js/flowchart.js:564-566 | Only sides with at least one entry get a list. |
| Ports.AllPorts | src/js/flowchart.js:550-581 | The ports are exactly those of the side lists, all well formed, and they run top, right, bottom, left and by index within a side. |
| Ports.NamedPorts | src/js/flowchart.js:568-570 | `$list` holds exactly the ports with a non-empty name, in side order. |
| Ports.FreePorts | src/js/flowchart.js:571-573 | `$free` holds exactly the listed ports that are free, and keeps the side order of the list. |
| Ports.RestTemplates | src/js/flowchart.js:574-576 | `$rest` holds exactly the listed rest templates, and keeps the side order of the list. |
| Ports.CreatePortsMap | src/js/flowchart.js:546-583 | There is no map exactly when no data is given or no side has an entry. Otherwise the map holds the side lists and `$list`, `$free`, `$rest` and `$all` as the rules above state, and `$list`, `$free` and `$rest` run in side order. |
| Ports.EmptyNameNoPorts | src/js/flowchart.js:560-583 | A `ports` object whose only side is "" gives no side list and no map (`null`). |
| Ports.SideRank | src/js/flowchart.js:552 | Each side sits at its own place in SIDES order. |
| Ports.FilterSideOrder | src/js/flowchart.js:568-576 | Selecting ports out of a list in side order leaves them in side order. |
| Ports.SidesOrdered | src/js/flowchart.js:552-567 | The four side lists joined top, right, bottom, left run in side order. |
| Ports.FourSidesOrdered | src/js/flowchart.js:552-567 | Any four lists, one per side with each port at its own index, joined in SIDES order are in side order. |
| Ports.JoinSideOrder | src/js/flowchart.js:552-567 | A list in side order on earlier sides, followed by one side's ports in index order, stays in side order. |
| Ports.PortsMapShape | src/js/flowchart.js:546-583 | A free port is never a rest template, and every listed port is on its own side's list. |
| Ports.FirstMatch | src/js/flowchart.js:2075-2080 | Returns the first rest template that matches, or -1 exactly when none does. |
| Ports.FirstMatchEarliest | src/js/flowchart.js:2075-2080 | Over `$rest` in side order, the template found comes before every other template that matches the name: the earliest side, then the lowest index. |
| Ports.GetPortByName | src/js/flowchart.js:2066-2084 | Without ports the result is null. An exact name wins. Otherwise a port is found exactly when some rest template matches: the first such template, or its concrete port of that name when asked for one. |
| Ports.LookupListedPort | src/js/flowchart.js:2066-2084 | Every listed port is found by its name. |
| Ports.LookupRestInstance | src/js/flowchart.js:2066-2084 | A generated rest-port name that no listed port carries resolves to the concrete port of the first template that generates it. |
| ElementProps.SplitDot | src/js/flowchart.js:198-221 | `split('.')` gives at least one part and no part holds a dot |
| ElementProps.SeedAfterCounts | src/js/flowchart.js:152-157 | an element without an order advances the counter and takes the counter value, plus 10000 for a relation |
| ElementProps.SeedAfterMonotone | src/js/flowchart.js:152-157 | the order counter never goes back |
| Bounds.Add | src/js/flowchart.js:866-869 | A sum is a number exactly when both operands are; a missing operand gives NaN. |
| Bounds.Derive | src/js/flowchart.js:858-873 | `hasPosition` holds exactly when left and top are numbers. Only then are right = left + width, bottom = top + height and the centre derived, and each is NaN when its size is missing. The stored fields are copied unchanged. |
| Bounds.CentreBetweenEdges | src/js/flowchart.js:866-869 | For a box of non-negative size the centre lies between the edges, at the same distance from each. |
| Bounds.IntersectsSymmetric | src/js/flowchart.js:951-961 | The rectangle test is symmetric, also when values are missing. |
| Bounds.IntersectsIffSharedPoint | src/js/flowchart.js:951-961 | For two fully known boxes the test holds exactly when the closed boxes share a point, so touching edges count. |
| Bounds.UnplacedIntersectsAll | src/js/flowchart.js:951-961 | A box without left and top intersects every box, because every comparison with NaN is false. |
| Bounds.Patched | src/js/flowchart.js:896-917 | setBounds writes top and left when they are numbers, and width and height only when they are non-negative numbers; every other field is kept. |
| Bounds.NegativeSizeIgnored | src/js/flowchart.js:910-917 | A negative width and height change nothing. |
| Bounds.PatchedIdempotent | src/js/flowchart.js:896-917 | Setting the same bounds twice is setting them once. |
| Bounds.FullPatchDerives | src/js/flowchart.js:896-917 | Once all four values are set, the element has a position and the derived right and bottom edges follow from them. |
| Bounds.Grow | src/js/flowchart.js:921-927 | The canvas takes the smaller left and top, and its width and height reach at least the element's right and bottom edges. Each new value is either the old canvas value or the element's. |
| Bounds.GrowCommutes | src/js/flowchart.js:921-927 | Growing the canvas by one box twice is growing it once, and the order of two boxes does not matter. |
| Bounds.MergeShape | src/js/flowchart.js:929-930 | The merged shape offsets have the old and new keys; new values win and old ones stay for the rest. |
| Bounds.TruthyCount | src/js/flowchart.js:931-936 | The count of truthy offsets is zero exactly when every offset is 0. |
| Elements.Canvas.constructor | src/js/flowchart.js:3181 | The canvas starts at the padding with zero size. |
| Elements.Element.constructor | src/js/flowchart.js:590-670 | An element takes over the normalised element data. Its bounds start from the position's left and top, and it starts with no links, no cache and no rest-port counter. |
| Elements.Element.InitBeforeRender | src/js/flowchart.js:966-975 | A node forgets its four link lists and its sibling index; a relation is left unchanged. |
| Elements.Element.GetBounds | src/js/flowchart.js:858-873 | Returns the bounds derived from the stored ones, and leaves them cached. |
| Elements.Element.SetBounds | src/js/flowchart.js:896-944 | Stores the bounds as Bounds.Patched states. A node given a position becomes custom unless it already was. A full box grows the canvas, and anything less leaves the canvas alone. A relation merges the given offsets and becomes custom when any merged offset is non-zero. The cache is dropped exactly when a coordinate or a size was set or a relation's merged offsets hold a non-zero value; otherwise it is unchanged. |
| Elements.Element.IsIntersectWith | src/js/flowchart.js:951-961 | True exactly when both elements are nodes and their derived bounds intersect. |
| Elements.Element.GetPortByName | src/js/flowchart.js:1166-1172 | A relation has no ports; a node resolves through its type, rest ports to their concrete ports. |
| Elements.Element.GetRelationsByPort | src/js/flowchart.js:1369-1390 | The relations leaving through the port, in order, followed by those arriving at it, in order. |
| Elements.LeavingThrough | src/js/flowchart.js:1372-1378 | Holds exactly the listed relations whose non-empty `fromPort` is the name. |
| Elements.ArrivingAt | src/js/flowchart.js:1379-1385 | Holds exactly the listed relations whose non-empty `toPort` is the name. |
| Elements.Element.AppendRestPortHolder | src/js/flowchart.js:1361-1367 | When the port is found and the counter exists, that template's count goes up by one; a missing count becomes NaN, which is modelled as dropping the entry. Otherwise nothing changes. |
| Elements.Element.GetRestPorts | src/js/flowchart.js:1392-1452 | A non-rest port gives nothing. For a rest template the counter starts at `restInitialCount - 1` when missing or 0. It ends at the largest of that start and every index handed out. In each relation list, every end on the template takes the first index at or after its own that no earlier end of the call has taken, and is renamed to it. No index is handed out twice across both lists. The result holds the concrete ports 0 to the counter, plus one placeholder exactly when asked for and the template has room. Of the relations, only the `fromPort` and `toPort` fields may change, and a relation in only one of the two lists keeps its other end's port. |
| Elements.Element.Recount | src/js/flowchart.js:1398-1435 | The counter entry of the template becomes the peak of its start and of the indices handed out, every other entry is kept, and both relation lists are rebased as GetRestPorts states. Of the relations, only the port-name fields may change, and a relation in only one of the two lists keeps its other end's port. |
| Elements.RealisedWithHolder | src/js/flowchart.js:1437-1448 | Ports 0 to the counter in order, then one placeholder exactly when asked for and the counter is below the template's maximum. |
| Elements.StartCount | src/js/flowchart.js:1403-1405 | A missing or zero count restarts at `restInitialCount - 1`; any other count is kept. |
| Elements.RealignBoth | src/js/flowchart.js:1408-1435 | The `fromRels` pass and then the `toRels` pass share one set of taken indices. The counter is the largest of its start and the indices given. No index is given twice across both lists. A `fromRels` end takes the first index not taken before it in its pass; a `toRels` end also skips every index the `fromRels` pass took. Of the relations, only the port-name fields may change, and a relation in only one of the two lists keeps its other end's port. |
| Elements.Realign | src/js/flowchart.js:1410-1421 | One pass gives each matching relation end the first index at or after its own that is neither taken on entry nor given to an earlier end of the pass, and renames the end to it. The indices are new to the pass and pairwise distinct. The counter is its start or one of the indices given. The other ends are untouched. Only the port-name fields of the list's relations may change. |
| Elements.RealignOne | src/js/flowchart.js:1411-1419 | One step takes the first index at or after the end's own that is not taken, marks it taken, raises the counter to it when larger, and renames the end. A non-matching end is left alone. Only the relation's `fromPort` and `toPort` may change. |
| Elements.RealisedPorts | src/js/flowchart.js:1438-1443 | The loop yields the concrete ports for indices 0 to the maximum, in order: the i-th is the template's concrete port named for index i. |
| Elements.RealisedSeq | src/js/flowchart.js:1438-1443 | The first n concrete ports of a template: n of them, the k-th named for index k. |
| Elements.Element.RealiseNext | src/js/flowchart.js:1440-1442 | One more loop step appends the concrete port for the next index and keeps the holder valid. |
| Elements.RealisedSnoc | src/js/flowchart.js:1438-1443 | The first n + 1 concrete ports are the first n followed by the port for index n. |
| Elements.SetEndPort | src/js/flowchart.js:1411-1419 | renaming one end's port leaves the other end's port alone, and no other field of the relation can change |
| Elements.RealignAt | src/js/flowchart.js:1410-1421 | one step of the pass realigns the next relation end, takes the first free index for it and leaves every other end as it was; only port-name fields may change |
| Chart.Lookup | src/js/flowchart.js:3747-3755 | an element is found exactly when a non-empty id is given and stored, and it is the stored element |
| Chart.FlowChart.GetElement | src/js/flowchart.js:3747-3755 | the chart's lookup answers from its own element table, absent for a missing or empty id |
| Chart.Listed | src/js/flowchart.js:3039-3043 | visiting the table in its recorded key order yields one element per recorded id, each the element stored under it |
| Chart.ListedTable | src/js/flowchart.js:3039-3043 | that visit reaches every stored element and reaches none twice |
| Chart.FlowChart.ListedFacts | src/js/flowchart.js:3039-3043 | the same for the chart's own table: every element visited once |
| Chart.FlowChart.ListedOrder | src/js/flowchart.js:3039-3043 | `$.each` over the plain object `elements` reaches the elements stored under array-index ids first, in ascending numeric order, ahead of every other element |
| Chart.ListedRelation | src/js/flowchart.js:3150-3163 | every stored relation is in the relation list the rebuild sorts by order |
| Chart.PutTable | src/js/flowchart.js:3855 | storing under an id keeps the recorded ids duplicate-free, complete and in object key order; an existing id keeps its place, and a new id is added as AddKey places it |
| Chart.ValueKey | src/js/flowchart.js:3855 | every stored element is stored under its own id |
| Chart.FlowChart.Store | src/js/flowchart.js:3855 | the element, under any id including "", replaces or joins the table and the id order grows only for a new id; an element that would leave a relation naming a relation as an end is refused, and then nothing changes |
| Chart.FlowChart.Put | src/js/flowchart.js:3854-3859 | the store succeeds exactly when every relation's found ends are nodes; then the table is updated as Store states and the rebuild leaves the chart linked, and otherwise nothing changes |
| Chart.FlowChart.constructor | src/js/flowchart.js:2683-2686 | a new chart has no elements and is trivially linked |
| Chart.ResetAll | src/js/flowchart.js:3150-3153 | splits the visited elements into nodes and relations in visiting order and leaves every node with empty relation, child and parent lists |
| Chart.NodesCovered | src/js/flowchart.js:3150-3153 | every stored node is among the nodes collected from a full visit |
| Chart.FlowChart.ResetAndCollect | src/js/flowchart.js:3150-3153 | the chart's nodes and relations are collected from the visit and every stored node is cleared |
| Chart.TableRelations | src/js/flowchart.js:3158-3163 | the sorted relation list holds each stored relation once |
| Chart.SortedRelations | src/js/flowchart.js:3158-3163 | sorting the collected relations by order keeps them duplicate-free and all stored relations |
| Chart.FlowChart.Collect | src/js/flowchart.js:3144-3163 | the node and relation lists are the collected elements sorted by order, and every node is cleared |
| Chart.FlowChart.Install | src/js/flowchart.js:3158-3163 | the stored node and relation lists become the collected lists sorted by order |
| Chart.FlowChart.InitRelationBeforeRender | src/js/flowchart.js:1070-1088 | a relation is drawn exactly when both ends are stored; a drawn one records both end nodes, takes its indexes from the source node's current list lengths and is appended to the source's outgoing list, the target's incoming list and their child and parent lists; a hidden one keeps its old ends |
| Chart.FlowChart.LinkEach | src/js/flowchart.js:3165-3167 | linking one relation changes exactly the lists of its two end nodes, each by one appended entry |
| Chart.Targets | src/js/flowchart.js:1084-1085 | the children added for a run of relations are their target nodes, in relation order |
| Chart.Sources | src/js/flowchart.js:1084-1085 | the parents added for a run of relations are their source nodes, in relation order |
| Chart.RelsFromVisible | src/js/flowchart.js:1074-1075 | only drawn relations enter a node's lists |
| Chart.RelsSnoc | src/js/flowchart.js:3165-3167 | one more relation extends a node's outgoing and incoming lists by that relation exactly when it is drawn and ends at the node |
| Chart.TargetsSnoc | src/js/flowchart.js:1084 | one more relation adds its target as the last child |
| Chart.SourcesSnoc | src/js/flowchart.js:1085 | one more relation adds its source as the last parent |
| Chart.LinksSnoc | src/js/flowchart.js:3165-3167 | linking relations one at a time builds every node's four lists as the drawn relations that leave or reach it, in relation order |
| Chart.FlowChart.LinkOne | src/js/flowchart.js:3165-3167 | after the next relation every node's lists cover the relations so far and that relation is recorded at its ends |
| Chart.FlowChart.LinkNext | src/js/flowchart.js:3165-3167 | the loop step keeps the earlier relations' records and extends the prefix by one |
| Chart.FlowChart.LinkKept | src/js/flowchart.js:3165-3167 | linking the next relation keeps the earlier relations' records, extends the linked prefix by one, and leaves the remembered ends of undrawn relations as they were |
| Chart.FlowChart.LinkRelations | src/js/flowchart.js:3165-3167 | after the loop every node's lists describe all drawn relations and hidden relations keep their old ends |
| Chart.FlowChart.Rebuild | src/js/flowchart.js:3139-3168 | the rebuild leaves the chart linked, with sound and exact node lists: every node lists exactly its drawn relations, and the children and parents they imply |
| Chart.FlowChart.LinkedNode | src/js/flowchart.js:3139-3168 | after a rebuild each node's relation entries are stored, distinct, drawn and point back at the node |
| Chart.FlowChart.LinkedRelation | src/js/flowchart.js:3139-3168 | after a rebuild each drawn relation is listed at both of its ends |
| Chart.FlowChart.LinkedAtStart | src/js/flowchart.js:1073-1083 | after a rebuild a drawn relation is in the fromRels of the node it leaves |
| Chart.FlowChart.LinkedAtEnd | src/js/flowchart.js:1073-1083 | after a rebuild a drawn relation is in the toRels of the node it reaches |
| Chart.DrawnAtEnds | src/js/flowchart.js:1073-1083 | after a rebuild over the sorted relation list, a drawn relation is in the fromRels of the node it leaves and the toRels of the node it reaches |
| Chart.RelsMember | src/js/flowchart.js:1073-1083 | a drawn relation is among the drawn relations leaving its start and among those arriving at its end |
| Chart.FlowChart.LinkedLists | src/js/flowchart.js:3139-3168 | after a rebuild the node lists are sound and hold exactly the drawn relations |
| Chart.Record | src/js/flowchart.js:834-852 | An element's export record carries its id, type, text and order, a relation's `hideArrow`, and, when the element is custom-placed, its saved position: a node's left and top or a relation's curve shape. Its other copied properties survive, and it carries a copy of its data. |
| Chart.Merged | src/js/flowchart.js:3987-3990 | merging data into the record lets data keys win, keeps the other record keys and drops the data key |
| Chart.Prepared | src/js/flowchart.js:3986-3991 | a record keeps a separate data part exactly when self-merging is off |
| Chart.PreparedAll | src/js/flowchart.js:3986-3992 | one prepared record per element, in visiting order |
| Chart.Stripped | src/js/flowchart.js:3996-3998 | stripping removes the order key and keeps every other field and the data |
| Chart.SortedItems | src/js/flowchart.js:3993-3995 | sorting the records by order is a permutation, ordered, and keeps records of equal order in visiting order |
| Chart.SameItemsMerged | src/js/flowchart.js:3993-3995 | a permutation keeps the self-merge shape of every record |
| Chart.StripAll | src/js/flowchart.js:3996-3998 | every record in the list loses its order key |
| Chart.SortAndStrip | src/js/flowchart.js:3993-3998 | the output is the stably sorted records with their order keys removed |
| Chart.FlowChart.CollectItems | src/js/flowchart.js:3985-3992 | one prepared record per stored element, in the table's key order |
| Chart.FlowChart.ItemOf | src/js/flowchart.js:3986-3990 | one element's item is its export record, merged with its data when self-merging is on |
| Chart.FlowChart.ExportData | src/js/flowchart.js:3981-3999 | one record per stored element, a permutation of the prepared records, with order removed and data merged exactly when self-merging is on; when every merged `order` is a number, the records are stably sorted by it |
| Chart.ById | src/js/flowchart.js:3065-3077 | the map holds exactly the ids of the given relations, each under its own id |
| Chart.AddEach | src/js/flowchart.js:3065-3077 | adding relations to the render map adds exactly those relations by id |
| Chart.FlowChart.AddSeedKeys | src/js/flowchart.js:3058-3087 | a seed adds itself, a node's relations or a relation's end nodes, and nothing else |
| Chart.FlowChart.ExpandedKeys | src/js/flowchart.js:3058-3087 | the partial render map holds exactly the ids explained by some seed |
| Chart.FlowChart.ExpandedKeyed | src/js/flowchart.js:3058-3087 | every entry of the partial render map is stored under its own id |
| Chart.FlowChart.CanSkipIff | src/js/flowchart.js:3099-3101 | rendering may skip an element exactly when partial rendering is on and no seed explains it |
| Chart.FlowChart.PartialRenderMap | src/js/flowchart.js:3049-3103 | partial rendering is on exactly for a non-empty id list, and the map is then the expansion of the seeds |
| Chart.FlowChart.AddSeedTo | src/js/flowchart.js:3059-3085 | one seed id adds the element it names and its linked elements, as the seed expansion states |
| Chart.FindId | src/js/flowchart.js:3946-3947 | the index found is the first entry with the id, or -1 exactly when none has it |
| Chart.Unlinked | src/js/flowchart.js:3945-3956 | when the relation is first in the list, splicing drops exactly that entry |
| Chart.UnlinkedMembers | src/js/flowchart.js:3945-3956 | splicing a relation out keeps every other entry and adds nothing |
| Chart.UnlinkedDistinct | src/js/flowchart.js:3945-3956 | after splicing, the id is gone from a duplicate-free list |
| Chart.SpliceOut | src/js/flowchart.js:3946-3949 | the splice removes the first entry with the id, if any |
| Chart.SpliceFrom | src/js/flowchart.js:3944-3950 | the source node's outgoing list loses the relation |
| Chart.SpliceTo | src/js/flowchart.js:3951-3957 | the target node's incoming list loses the relation |
| Chart.SpliceEnds | src/js/flowchart.js:3944-3957 | both end lists lose the relation, and sound, exact node lists stay so without it |
| Chart.FlowChart.Forget | src/js/flowchart.js:3959 | the entry is removed and the id order keeps the remaining ids |
| Chart.FlowChart.DropRelation | src/js/flowchart.js:3944-3959 | deleting a relation removes its entry and splices it from both end lists, keeping the lists sound and exact |
| Chart.FlowChart.SpliceRelation | src/js/flowchart.js:3944-3957 | the two splices leave the chart valid, take the relation out of both end lists, and make sound (exact) lists sound (exact) for the table without it |
| Chart.FlowChart.DeleteNested | src/js/flowchart.js:3918-3978 | a nested delete of a relation id removes it exactly when the id is non-empty and stored, and then rebuilds; "" or a missing id changes nothing; it reports the list the caller iterates, with the relation spliced out when it ends at the node |
| Chart.FlowChart.DropAndRebuild | src/js/flowchart.js:3944-3970 | deleting a stored relation and rebuilding leaves the chart linked, with the old array of the iterated end spliced |
| Chart.VisitsSkipNext | src/js/flowchart.js:3938-3939 | that iteration reaches only entries of the list, each id once, and every entry but the one after the first findable entry, which it never reaches |
| Chart.Visits | src/js/flowchart.js:3938-3939 | the entries a forEach reaches when its first callback that finds its relation splices that entry out: one entry fewer when the list is long enough, and each entry reached is the entry at the same index, or at the next index after the spliced one |
| Chart.LeadFound | src/js/flowchart.js:3926-3949 | the first entry a nested delete finds has a non-empty id, and splicing that id out removes exactly its index |
| Chart.MinusFound | src/js/flowchart.js:3930-3959 | a nested delete removes its id exactly when the id is non-empty and still stored, so the table loses exactly the findable ids reached so far |
| Chart.FlowChart.DeleteLinkedAsWritten | src/js/flowchart.js:3935-3939 | the cascade as written deletes exactly the findable entries that the spliced iteration reaches; an entry stored under "" is never found and stays |
| Chart.WalkNames | src/js/flowchart.js:3935-3939 | every findable entry a walk over a sound list reaches is a stored relation that leaves (for fromRels) or reaches (for toRels) the node |
| Chart.WalksRemoved | src/js/flowchart.js:3933-3959 | the two walks and the node's own removal take out only the node and relations naming it; every relation the first walk reached is gone; an element that went and does not reach the node was reached by the first walk |
| Chart.FlowChart.DeleteNodeAsWritten | src/js/flowchart.js:3933-3939 | the node goes; every element removed is the node or a relation leaving or reaching it; all relations the outgoing walk reaches are gone, and any other removed element that does not reach the node is one of those; the outgoing relation after the first findable one is left stored when it does not end at the node |
| Chart.FlowChart.DeleteOneAsWritten | src/js/flowchart.js:3926-3966 | one id as written: found exactly when non-empty and stored, "" deletes nothing, a relation removes exactly its own entry, every element removed is the id or a relation naming it, and the relation skipped by the cascade survives |
| Chart.FlowChart.DeleteAsWritten | src/js/flowchart.js:3918-3978 | the delete as written: listed non-empty ids go, every removed element is listed or a relation naming a listed id, a listed stored id that no other listed id names is in the deleted list, the deleted list is empty exactly when no listed id is non-empty and stored, the chart is relinked, and deleting one node can leave a once-drawn relation stored but hidden |
| Chart.FlowChart.Skipped | src/js/flowchart.js:3938 | the relation the cascade skips, the outgoing entry after the first findable one, is a stored outgoing relation of the node |
| Chart.Stranded | src/js/flowchart.js:3938 | a relation left behind whose source is gone stays stored but is no longer drawn |
| Chart.FlowChart.DeleteLinked | src/js/flowchart.js:3935-3939 | the corrected cascade removes every findable relation in the node's list, keeps the other drawn relations drawn and leaves none drawn at that end; a relation stored under "" stays, as getElement never finds it |
| Chart.FlowChart.CopyWalk | src/js/flowchart.js:3935-3939 | walking a copy of the list deletes exactly its findable relations |
| Chart.FlowChart.DeleteNode | src/js/flowchart.js:3933-3959 | deleting a node removes exactly the node and the findable relations of its two lists, changes no surviving entry, and keeps every other drawn relation drawn |
| Chart.FlowChart.DeleteBothLinked | src/js/flowchart.js:3935-3939 | the two walks together remove exactly the findable relations of both lists of the node, keep the node and every other drawn relation drawn, and leave no drawn relation at the node |
| Chart.ArrivingExact | src/js/flowchart.js:3939 | over sound, exact lists a node's toRels hold, apart from "" entries, exactly the stored drawn relations that reach it |
| Chart.SecondPass | src/js/flowchart.js:3938-3939 | the toRels walk after the fromRels walk removes exactly the findable entries of the original toRels that the first walk left, so both walks together remove the findable entries of both original lists |
| Chart.FlowChart.DeleteOne | src/js/flowchart.js:3926-3966 | one id: found exactly when non-empty and stored; removed are exactly the id and, for a node, the findable relations of its lists, so every removed element is the id or a relation naming it; "" deletes nothing, and no surviving relation loses its drawing |
| Chart.FlowChart.DeleteFound | src/js/flowchart.js:3930-3959 | an element getElement found leaves the table together with its cascade: exactly the element, and for a node the findable relations of its lists |
| Chart.CascadeNames | src/js/flowchart.js:3930-3959 | over sound lists, what deleting an id removes is stored and is the id or a relation that names it |
| Chart.CascadeRemoved | src/js/flowchart.js:3930-3959 | removing a set of ids that are `k` or name `k` removes nothing else |
| Chart.FlowChart.Delete | src/js/flowchart.js:3918-3978 | every listed non-empty id is gone, nothing new appears, every removed element is listed or a relation naming a listed id, a listed stored id that no other listed id names is in the deleted list, the deleted list is empty exactly when no listed id is non-empty and stored, the chart is relinked and surviving drawn relations stay drawn |
| Chart.ProgressDone | src/js/flowchart.js:3925-3967 | after the id loop the deleted list holds stored elements named in the list and nothing else was added; every removed element is listed or a relation naming a listed id; a listed stored id that no listed id names was deleted |
| Chart.ProgressStep | src/js/flowchart.js:3925-3966 | one more id keeps the loop invariant: what it found joins the deleted list, its id is gone, and it removed only the id and relations naming it |
| Chart.KeysIn | src/js/flowchart.js:3959 | the id order after deletions holds exactly the ids still stored |
| Chart.KeysInDistinct | src/js/flowchart.js:3959 | that order stays duplicate-free |
| Chart.KeysInKeyOrder | src/js/flowchart.js:3959 | deleting keys keeps the remaining ids in object key order |
| Chart.DrawnKeptRelations | src/js/flowchart.js:3944-3959 | removing only relations keeps every other drawn relation drawn |
| Chart.ForgotDrawnKept | src/js/flowchart.js:3959 | removing a node no drawn relation touches keeps every drawn relation drawn |
| Chart.StillVisible | src/js/flowchart.js:3944-3959 | a drawn relation stays drawn when only relations are removed |
| Layout.Depth | src/js/flowchart.js:1745-1755 | a node's depth is zero exactly when it is a begin node or has no parent, and is bounded by the rank of any ordering that puts parents before children |
| Layout.DepthRankFree | src/js/flowchart.js:1745-1755 | the depth does not depend on which acyclicity witness is used |
| Layout.Up | src/js/flowchart.js:1748-1749 | walking first parents stays inside the graph |
| Layout.DepthIsChainLength | src/js/flowchart.js:1745-1755 | the depth is exactly the number of first-parent steps to the first node without one |
| Layout.SiblingIndex | src/js/flowchart.js:1730-1743 | a node's sibling index is its first position among its first parent's children, -1 when it is not among them, and 0 for a begin or parentless node |
| Layout.DepthSize | src/js/flowchart.js:1757-1785 | a node's depth size is at least its own extent across the layout direction |
| Layout.ChildrenSizeCovers | src/js/flowchart.js:1772-1782 | the summed size of the children one level deeper is non-negative and covers each such child's depth size |
| Layout.ParentCoversChild | src/js/flowchart.js:1757-1785 | a node's depth size covers that of every child one level below it |
| Layout.LeafNeedsOwnSize | src/js/flowchart.js:1757-1785 | a node with no child one level below needs exactly its own extent |
| Layout.NoChildCounted | src/js/flowchart.js:1774-1782 | children at another depth add nothing |
| Layout.ComputeDepthSize | src/js/flowchart.js:1757-1785 | the loop with its running sum and the spacing between counted children computes the depth size |
| Layout.LayoutSize | src/js/flowchart.js:3217 | the size a node claims in its bucket covers its own extent |
| Layout.Put | src/js/flowchart.js:3218-3228 | adding a node to a depth bucket appends it and its size there, or opens the bucket, and leaves every other bucket alone |
| Layout.FillDepths | src/js/flowchart.js:3210-3230 | the depth buckets hold only graph nodes |
| Layout.FillDepthsMembers | src/js/flowchart.js:3210-3230 | every node in the bucket for depth d is a non-end auto-layout node of depth d, and the maximum size is non-negative |
| Layout.FillDepthsHolds | src/js/flowchart.js:3210-3230 | every non-end auto-layout node lands in the bucket of its depth, and the maximum covers its size |
| Layout.EndNodes | src/js/flowchart.js:3212-3214 | the deferred end nodes are graph nodes |
| Layout.EndNodesMembers | src/js/flowchart.js:3212-3214 | the deferred nodes are exactly the end-type auto-layout nodes |
| Layout.FillEnds | src/js/flowchart.js:3231-3249 | each end node gets a new bucket of its own after the depth buckets, with its own extent, and the maximum covers them |
| Layout.Buckets | src/js/flowchart.js:3210-3249 | the buckets hold only graph nodes |
| Layout.FillDepthsLoop | src/js/flowchart.js:3210-3230 | the first loop builds the depth buckets and collects the end nodes |
| Layout.FillEndsLoop | src/js/flowchart.js:3231-3249 | the second loop appends the end buckets |
| Layout.FillBuckets | src/js/flowchart.js:3210-3249 | both loops together build the buckets and the maximum size |
| Layout.BucketsPlaceEveryNode | src/js/flowchart.js:3210-3249 | every auto-layout node is in the bucket of its depth, or in an end bucket of its own, and the maximum size covers them all |
| Layout.BucketsHoldAll | src/js/flowchart.js:3210-3249 | every auto-layout node is in some bucket |
| Layout.PlaceList | src/js/flowchart.js:3253-3272 | packing a bucket positions exactly its nodes |
| Layout.PlaceListAt | src/js/flowchart.js:3253-3272 | each node of a bucket sits at its bucket's offset along the main axis and at its running offset across it |
| Layout.PackedApart | src/js/flowchart.js:3253-3272 | within a bucket every later node starts at least one node extent plus the spacing after an earlier one |
| Layout.StartGrows | src/js/flowchart.js:3270 | the running offset never decreases |
| Layout.PlaceAll | src/js/flowchart.js:3250-3273 | packing succeeds exactly when no depth bucket is missing, and then positions exactly the bucketed nodes |
| Layout.PackBucket | src/js/flowchart.js:3253-3272 | the inner loop positions the bucket's nodes |
| Layout.Pack | src/js/flowchart.js:3250-3273 | the outer loop positions every bucket, or reports the missing one |
| Layout.AllPacked | src/js/flowchart.js:3250-3273 | when packing succeeds every auto-layout node has a position |
| Layout.BoxesAt | src/js/flowchart.js:3250-3273 | the boxes are the nodes' packed positions with their sizes |
| Layout.OverlapsIsIntersect | src/js/flowchart.js:3286 | the overlap test on boxes is the bounds intersection test, and it is symmetric |
| Layout.RepeatForward | src/js/flowchart.js:3288-3292 | n pushes move a box n times its extent plus spacing forward across the depth axis, keep its coordinate along that axis and keep its size |
| Layout.RepeatAdd | src/js/flowchart.js:3288-3292 | pushes compose by adding their counts |
| Layout.CheckRow | src/js/flowchart.js:3281-3294 | one pass over the earlier boxes pushes only the current box, the first box never moves, and an unpushed box overlaps none before it |
| Layout.Sweep | src/js/flowchart.js:3278-3295 | one sweep only pushes boxes forward, never the first, and a sweep without a push leaves the boxes pairwise apart |
| Layout.Unoverlap | src/js/flowchart.js:3275-3296 | repeated sweeps only push boxes forward, never the first, and when they stop the boxes are pairwise apart |
| Layout.AutoLayout | src/js/flowchart.js:3202-3297 | the auto layout fails exactly when a depth has no bucket; otherwise every node gets its packed box pushed forward by the overlap loop, and a converged loop leaves no two boxes overlapping |
| Layout.Join | src/js/flowchart.js:1847-1860 | the joined bounds cover the new parent box and the bounds so far |
| Layout.UnionCoversParents | src/js/flowchart.js:1841-1871 | the parents' joined bounds cover every placed parent |
| Layout.JoinParents | src/js/flowchart.js:1841-1871 | there are joined bounds exactly when some parent is placed |
| Layout.JoinParentsLoop | src/js/flowchart.js:1841-1871 | the loop over the parents joins their bounds and numbers their children |
| Layout.Assign | src/js/flowchart.js:1861-1869 | numbering keeps existing numbers, numbers exactly the new children and only counts up |
| Layout.AssignLoop | src/js/flowchart.js:1864-1868 | the loop over a parent's children numbers them |
| Layout.AssignNumbers | src/js/flowchart.js:1861-1869 | every sibling number is below the counter |
| Layout.JoinKeepsNumbering | src/js/flowchart.js:1841-1871 | across all parents the numbers stay below the counter |
| Layout.SnapCoord | src/js/flowchart.js:1891-1899 | snapping to the grid keeps exactly the coordinates that are set |
| Layout.SnapOnGrid | src/js/flowchart.js:1894-1897 | a snapped coordinate is a whole multiple of the grid within half a grid step of the original |
| Layout.LayoutNode | src/js/flowchart.js:1800-1901 | a node already placed keeps its position; otherwise it gets one, and the layout fails only when it must follow its parents and none is placed |
| Layout.PinnedNodeStays | src/js/flowchart.js:1807 | a custom-placed node is left alone when snapping is off or skipped |
| Layout.CentredOnCentrePoint | src/js/flowchart.js:1809-1811 | a node given a centre point is centred on it within one unit |
| Layout.BesideAnchorClear | src/js/flowchart.js:1820-1837 | a node placed beside an anchor does not overlap it, and its position becomes auto with direction and anchor cleared |
| Layout.BelowEveryParent | src/js/flowchart.js:1838-1879 | a node placed from its parents starts beyond every placed parent by at least the spacing |
| Route.Mid | src/js/flowchart.js:3331-3334 | the floored midpoint of two coordinates lies between them |
| Route.MidOffset | src/js/flowchart.js:3331-3334 | the floored midpoint is the lower coordinate plus half the distance rounded down, in either order |
| Route.Clamp | src/js/flowchart.js:3385-3386 | the polyline offset ratio is clamped into -1..1 and left alone inside it |
| Route.DashPattern | src/js/flowchart.js:3337-3343 | a dash pattern is set exactly for the dashed and dotted styles |
| Route.DashProportions | src/js/flowchart.js:3337-3340 | dashed is four line widths on and two off; dotted is one on and one off |
| Route.WithDefaults | src/js/flowchart.js:3383 | the stored shape has every default key plus the given ones, each with its given value or zero |
| Route.Shift | src/js/flowchart.js:3385-3386 | the control point's shift from the centre is within half the bounds extent, and zero for a zero ratio |
| Route.ScaledHalf | src/js/flowchart.js:3385-3386 | a clamped ratio times half the extent stays within half the extent |
| Route.ElbowAxisBounds | src/js/flowchart.js:3384-3387 | the control point lies within the box spanned by the two ends, allowing one unit of flooring below it |
| Route.FloorWithin | src/js/flowchart.js:3385-3386 | flooring a coordinate within the span keeps it within one unit below the span |
| Route.ElbowBelowBox | src/js/flowchart.js:3385-3386 | that unit is needed: a ratio of -1 on a one-unit span floors to one below it |
| Route.ElbowCentred | src/js/flowchart.js:3385-3386 | a zero ratio puts the control point on the floored centre |
| Route.PolylineCorners | src/js/flowchart.js:3393-3409 | the polyline has five points, from the begin point through the control point to the end point |
| Route.PolylineOrthogonal | src/js/flowchart.js:3393-3409 | when both ends have a side every segment of the polyline is horizontal or vertical |
| Route.SideAxis | src/js/flowchart.js:3398-3405 | every side is either horizontal or vertical, never both |
| Route.PolylineInBox | src/js/flowchart.js:3393-3409 | every polyline point lies in the box spanned by the ends, allowing one unit of flooring |
| Route.PathThrough | src/js/flowchart.js:3393-3409 | each command letter of the path is followed by the two coordinates of its point |
| Route.PathPoint | src/js/flowchart.js:3393-3409 | the i-th command and coordinates of the path come from the i-th point |
| Route.Polyline | src/js/flowchart.js:3379-3433 | the polyline path runs through its corners with the control point as handle, stores its shape exactly when a ratio is non-zero, and records half the bounds as the handle range |
| Route.Straight | src/js/flowchart.js:3434-3442 | a straight line moves to the begin point and draws to the end point, with no handles and no stored shape |
| Route.BesselEndOutward | src/js/flowchart.js:3447-3452 | each end's control point moves outward from its side by at most half the curvature-scaled extent and stays put across a side that does not face that way |
| Route.CurvePoints | src/js/flowchart.js:3447-3460 | a curve has three control points |
| Route.Curve | src/js/flowchart.js:3443-3507 | the curve path is two quadratic pieces from the begin point through the three control points to the end point, and the full shape offsets are stored |
| Route.FlatCurve | src/js/flowchart.js:3443-3460 | with zero curvature and no offsets the control points are the two ends and their floored midpoint |
| Route.DrawRelationLine | src/js/flowchart.js:3329-3653 | every shape is drawn except arc |
| Route.BesselArcIsBessel | src/js/flowchart.js:3443-3572 | the bessel and besselArc shapes draw the same line |
| Route.LabelFollowsHandle | src/js/flowchart.js:3410-3411 | the label moves with the main handle by the same offset the offset ends have from the ends |
| Route.LabelCentred | src/js/flowchart.js:3331-3334 | without handle offsets the label sits at the floored midpoint of the offset ends |
| Route.LabelBox | src/js/flowchart.js:3647-3652 | the label's corner is the floor of its centre minus half its size |

## Left out

- The DOM, jQuery and SVG work. This covers rendering of nodes, ports and lines, the creation and update of SVG elements, arrow markers and style conversion. It also covers drag, drop, context menus, click and text-editing handlers, and canvas sizing. What the route model keeps of `drawRelationLine` is listed above.
- Nearest-free-port resolution (src/js/flowchart.js:1020-1040). It measures rendered DOM positions, so it cannot be modelled here.
- Route.DrawRelationLine: the arc shape (src/js/flowchart.js:3573-3638) is not modelled and yields `None`. It needs square roots and a division by the difference of the end points' tops.
- ElementProps.Normalize: `$.zui.uuid` is not modelled. The fresh id is a parameter.
- Ports.RestPortIndex: the `RegExp` engine is not modelled. A `*` template is read as prefix + decimal digits + suffix.
- Plugin loading, callbacks (`callCallback`), language tables, the defaults beyond the numeric layout options, z-index counters and `render` itself (beyond its auto-layout block).
- Chart.FlowChart.Delete: focus and active-element bookkeeping, the DOM removals, the re-render and the `onDeleteElement` callback are not modelled.
- Chart.FlowChart.DeleteAsWritten: the same parts are not modelled here either.
- Chart.FlowChart.Delete: over several ids, what may go is bounded by naming: every removed element is listed or a relation whose `from` or `to` is listed. The exact removed set is stated per id, by `Chart.FlowChart.DeleteOne` and `Chart.FlowChart.DeleteNode`, and is not composed over the whole list.
- Chart.FlowChart.DeleteAsWritten: the same bound by naming is stated, not the exact set the spliced walks reach over the whole list.
- Chart.FlowChart.DeleteNodeAsWritten: the removed set is pinned down for the outgoing walk (everything it reaches is gone, and nothing else that does not reach the node went). For the incoming walk it is bounded by naming only: what it removes reaches the node.
- Chart.FlowChart.ExportData: when self-merging brings in an `order` that is not a number (a raw `data.order` such as `"x"`), the comparator at src/js/flowchart.js:3994 yields NaN. It is then not a consistent comparator, and the result order is implementation-defined. The model promises only a permutation in that case. A numeric string such as `"3"`, which the subtraction reads as 3, is not given its numeric value by the model's sort key.
- Chart.FlowChart.Put: a relation whose `from` or `to` names another relation is stored by the source, whose rebuild then throws a TypeError at `fromNode.fromRels.length` (src/js/flowchart.js:1077). The model refuses that store (`ok` is false) and leaves the chart as it was, so the half-built state after the throw is not modelled.
- Chart.FlowChart.Store: the same case is refused here, before the rebuild, rather than stored.
- Chart.FlowChart.Put: only the store of `update` (src/js/flowchart.js:3854-3859) and the rebuild after it are modelled. `createElements` and the rest of `update` are not. They carry known defects: `createElements` uses `froms`/`fromInfo` in its `to` branch (src/js/flowchart.js:2866-2875), and `update` calls an undefined `setPosition` (src/js/flowchart.js:3806).
- Layout.Unoverlap: the `while (needCheckOverlay)` loop has no termination argument in the source. The model runs at most `fuel` sweeps and reports whether the last one moved nothing, so "apart" is proved only for a converged run.
- Layout.AutoLayout: when a depth has no bucket the source throws a TypeError halfway through packing. The model returns `Err` and does not keep the positions set before the failure.
- Layout.AutoLayout: positions are computed on a value snapshot of the graph. The model returns the boxes instead of writing them back into the element objects.
- Layout.LayoutNode: it works on a value snapshot of the node, so writing back into the element, the `$ele.css` call and the lookup of the direction anchor are not modelled. The anchor's box is a parameter.
- Layout.BesideAnchorClear: it assumes the anchor's bounds are numbers of non-negative size and the spacing is positive.
- Layout.Depth: `render` clears the memo fields only on the nodes it lays out. A stale `_depth` or `_depthSize` left on a placed ancestor by an earlier render is not modelled.
- Elements.Element.AppendRestPortHolder: incrementing a missing count gives NaN in the source. The model drops that counter entry instead, which reads back as missing. The re-render (`freshRender`) that follows the increment is not modelled.
- Elements.Element.GetRestPorts: a rest template is taken to have a name and a `*` in it, and a `restMinIndex` of at least 0. In the source a template name without `*` gives NaN indices, so the counter becomes NaN and the result is empty. A negative `restMinIndex` names low indices with a minus sign, which the template then fails to match. Neither case is modelled.
- ElementProps.NodePositionRule: coordinates are numbers or missing. The `parseInt` of string coordinates (src/js/flowchart.js:239-246) is not modelled. A raw `custom: false`, which `$.extend({custom: true}, value)` would keep, cannot be written either: the model's `custom` is unset or one of two truthy markers. Other raw keys of a node's position, which the same `$.extend` keeps and `exportData` returns with the position (src/js/flowchart.js:839-841), are not carried either: the model's position holds left, top, centerLeft, centerTop, direction, from and the custom mark only.
- ElementProps.Build: a relation's raw position is modelled by the fields of `NodePosition` (left, top, centerLeft, centerTop, direction, from and the custom mark). Other raw keys, which `$.extend({custom: true}, value)` (src/js/flowchart.js:191) would also keep, are not carried. A raw `custom: false` or another falsy value that is not undefined cannot be written either, so a relation with a shape and such a mark is modelled as custom, while the source leaves it non-custom and does not export it (src/js/flowchart.js:839-841).
- ElementProps.RelationPositionRule: the same limits apply. A raw custom mark is kept only when it is one of the model's two truthy markers.
- Bounds.Derive: NaN is modelled as a missing number. In the source `typeof NaN === 'number'`, so a NaN left or top still gives `hasPosition` (src/js/flowchart.js:863). The model reports no position for it.
- Elements.Element.SetBounds: for the same reason, a NaN coordinate is stored by the source, makes a node custom-placed and drops the cache (src/js/flowchart.js:902-909, 940-942). The model treats it as not given.
- ElementProps.Normalize: a type whose own props replace one of the computed rules (id, type, text, order, data, position, from, to, fromPort, toPort, hideArrow) is not modelled; the built-in rule always applies to those keys. A type's `text` given as a function (src/js/flowchart.js:148) is modelled by the value it yields, a field of the type.
- Layout.LayoutSize: the source places every node, end nodes included, by `getDeptSize` (src/js/flowchart.js:3255). That value is memoised (src/js/flowchart.js:1758-1760) and cleared only before the first loop (src/js/flowchart.js:3194). During the first loop, the recursion over children (src/js/flowchart.js:1776-1779) fills an end node's memo at its natural depth, and 3255 then returns that memo. The model uses an end node's own extent instead, which is the same value whenever the end node has no children.
- src/js/ajax.fake.js is not part of this model. It is a test double around `$.ajax`, network I/O and timers.

## Findings

| source | as written | input that shows it | evidently intended | confidence | as-written member | corrected member |
|---|---|---|---|---|---|---|
| src/js/flowchart.js:3933-3939 | deleting a node calls `delete` on each relation of `element.fromRels` with `forEach`. The first nested delete splices that same array and then rebuilds, which replaces the node's arrays. The iteration therefore skips the entry after the first one the nested delete finds: the second entry, or the third when the first is stored under the never-found id "". The `toRels` forEach (src/js/flowchart.js:3939) runs over the array its first nested delete splices (src/js/flowchart.js:3955) and skips in the same way; `Chart.FlowChart.DeleteLinkedAsWritten` with `outgoing` false models that pass | a node with two outgoing relations, the second of which does not end at the node; after `delete(node.id)` the second relation stays stored, hidden and never deleted | every relation of a deleted node is deleted with it | not executed | Chart.FlowChart.DeleteAsWritten | Chart.FlowChart.Delete |
