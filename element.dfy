/**
 * A flowchart element (`FlowChartElement` in src/js/flowchart.js) as an
 * object whose fields the chart updates in place: its bounds and their
 * cache, its graph links, and the rest-port bookkeeping of a node.
 *
 * Nodes and relations share one class, as in the source; `isNode` tells
 * them apart. Fields the source never changes after construction are
 * `const`.
 */
module Elements {
  import opened Base
  import opened ElementProps
  import opened Ports
  import opened Bounds

  /** The chart canvas `flowChart.bounds`, grown by setBounds. */
  class Canvas {
    var area: Area

    constructor (padding: real)
      ensures area == Area(padding, padding, 0.0, 0.0)
    {
      area := Area(padding, padding, 0.0, 0.0);
    }
  }

  class Element {
    const id: string
    const typeName: string
    const isNode: bool
    const order: int
    const text: string
    /** A relation's `hideArrow`; false on a node, which has no such property. */
    const hideArrow: bool
    /** Node part of the `from` / `to` reference of a relation. */
    const from: Option<string>
    const to: Option<string>
    const data: map<string, Value>
    /** The raw values of the type's copied properties (style, lineColor, ...). */
    const copied: map<string, Value>
    /** The port table of the node's type. */
    const ports: Option<PortsMap>

    var fromPort: Option<string>
    var toPort: Option<string>

    // relation links, set by initRelationBeforeRender
    var visible: bool
    var fromIndex: int
    var toIndex: int
    var fromNode: Element?
    var toNode: Element?

    // node links, reset by initBeforeRender
    var fromRels: seq<Element>
    var toRels: seq<Element>
    var children: seq<Element>
    var parents: seq<Element>
    var siblingsIndex: Option<int>

    var bounds: Rect
    /** `bounds.shape`: persisted curve offsets of a relation. */
    var shape: Option<map<string, real>>
    var boundsCache: Option<BoundsInfo>
    var position: NodePosition

    /** `_restPortsCounter`: highest realised index per rest template name. */
    var restPortsCounter: Option<map<string, int>>

    /** The element built from normalised element data. */
    constructor (d: ElementData, typePorts: Option<PortsMap>)
      ensures id == d.id && typeName == d.typeName && isNode == !d.isRelation && order == d.order
      ensures text == d.text && hideArrow == (d.hideArrow == Some(true))
      ensures from == d.from && to == d.to && fromPort == d.fromPort && toPort == d.toPort
      ensures data == d.data && copied == d.copied && ports == typePorts
      ensures position == d.position
      ensures bounds == Rect(d.position.left, d.position.top, None, None)
      ensures !visible && fromNode == null && toNode == null
      ensures fromRels == [] && toRels == [] && children == [] && parents == []
      ensures boundsCache.None? && shape.None? && restPortsCounter.None? && siblingsIndex.None?
    {
      id := d.id;
      typeName := d.typeName;
      isNode := !d.isRelation;
      order := d.order;
      text := d.text;
      hideArrow := d.hideArrow == Some(true);
      from := d.from;
      to := d.to;
      data := d.data;
      copied := d.copied;
      ports := typePorts;
      fromPort := d.fromPort;
      toPort := d.toPort;
      visible := false;
      fromIndex := 0;
      toIndex := 0;
      fromNode := null;
      toNode := null;
      fromRels := [];
      toRels := [];
      children := [];
      parents := [];
      siblingsIndex := None;
      bounds := Rect(d.position.left, d.position.top, None, None);
      shape := None;
      boundsCache := None;
      position := d.position;
      restPortsCounter := None;
    }

    /** initBeforeRender: a node forgets its links and its sibling index; a relation is left as it is. */
    method InitBeforeRender()
      modifies this`fromRels, this`toRels, this`children, this`parents, this`siblingsIndex
      ensures isNode ==> fromRels == [] && toRels == [] && children == [] && parents == [] && siblingsIndex.None?
      ensures !isNode ==> unchanged(this)
    {
      if isNode {
        siblingsIndex := None;
        fromRels := [];
        toRels := [];
        children := [];
        parents := [];
      }
    }

    // -------------------------------------------------------------------
    // Bounds
    // -------------------------------------------------------------------

    /** The cache, when filled, holds the bounds derived from the stored ones. */
    ghost predicate CacheValid()
      reads this
    {
      boundsCache.Some? ==> boundsCache.value == Derive(bounds)
    }

    /** getBounds: the cached derived bounds, computed and cached on a miss. */
    method GetBounds() returns (b: BoundsInfo)
      requires CacheValid()
      modifies this`boundsCache
      ensures CacheValid()
      ensures b == Derive(bounds) && boundsCache == Some(b)
    {
      if boundsCache.Some? {
        b := boundsCache.value;
      } else {
        b := Derive(bounds);
        boundsCache := Some(b);
      }
    }

    /**
     * setBounds: stores the given coordinates and non-negative sizes; a node
     * given a position becomes custom-placed; a full box grows the canvas; a
     * relation merges the given curve offsets and becomes custom when any
     * offset is non-zero; the cache is dropped exactly when a coordinate, a
     * size or a non-zero merged offset was set.
     */
    method SetBounds(p: Patch, canvas: Canvas)
      requires CacheValid()
      modifies this`bounds, this`shape, this`position, this`boundsCache, canvas
      ensures CacheValid()
      ensures bounds == Patched(old(bounds), p)
      ensures isNode && (SetsTop(p) || SetsLeft(p)) && old(position.custom) == Unset
              ==> position == old(position).(custom := Manual)
      ensures !isNode && p.shape.Some? && TruthyCount(MergeShape(old(shape), p.shape.value)) > 0
              ==> position == old(position).(custom := Manual)
      ensures (isNode ==> !(SetsTop(p) || SetsLeft(p)) || old(position.custom) != Unset)
              && (!isNode ==> p.shape.None? || TruthyCount(MergeShape(old(shape), p.shape.value)) == 0)
              ==> position == old(position)
      ensures shape == (if !isNode && p.shape.Some? then Some(MergeShape(old(shape), p.shape.value)) else old(shape))
      ensures SetsTop(p) && SetsLeft(p) && SetsWidth(p) && SetsHeight(p)
              ==> Placed(bounds) && canvas.area == Grow(old(canvas.area), bounds)
      ensures !(SetsTop(p) && SetsLeft(p) && SetsWidth(p) && SetsHeight(p)) ==> canvas.area == old(canvas.area)
      ensures SetsTop(p) || SetsLeft(p) || SetsWidth(p) || SetsHeight(p)
              || (!isNode && p.shape.Some? && TruthyCount(MergeShape(old(shape), p.shape.value)) > 0)
              ==> boundsCache.None?
      ensures !(SetsTop(p) || SetsLeft(p) || SetsWidth(p) || SetsHeight(p))
              && (isNode || p.shape.None? || TruthyCount(MergeShape(old(shape), p.shape.value)) == 0)
              ==> boundsCache == old(boundsCache)
    {
      var setPosition := SetsTop(p) || SetsLeft(p);
      var setSize := SetsWidth(p) || SetsHeight(p);
      bounds := Patched(bounds, p);
      if isNode && setPosition && position.custom == Unset {
        position := position.(custom := Manual);
      }
      if SetsTop(p) && SetsLeft(p) && SetsWidth(p) && SetsHeight(p) {
        canvas.area := Grow(canvas.area, bounds);
      }
      var setShape := 0;
      if !isNode && p.shape.Some? {
        var merged := MergeShape(shape, p.shape.value);
        shape := Some(merged);
        setShape := TruthyCount(merged);
        if setShape > 0 {
          position := position.(custom := Manual);
        }
      }
      if setPosition || setSize || setShape > 0 {
        boundsCache := None;
      }
    }

    /** isIntersectWith: only two nodes can intersect, by the rectangle test on their bounds. */
    method IsIntersectWith(other: Element) returns (r: bool)
      requires CacheValid() && other.CacheValid()
      modifies this`boundsCache, other`boundsCache
      ensures CacheValid() && other.CacheValid()
      ensures r <==> isNode && other.isNode && Intersects(Derive(bounds), Derive(other.bounds))
    {
      if !isNode || !other.isNode {
        return false;
      }
      var b1 := GetBounds();
      var b2 := other.GetBounds();
      r := Intersects(b1, b2);
    }

    // -------------------------------------------------------------------
    // Ports
    // -------------------------------------------------------------------

    /** getPortByName on an element: relations have no ports; rest ports resolve to concrete ones. */
    function GetPortByName(name: string): (r: Option<Port>)
      ensures !isNode ==> r.None?
      ensures isNode ==> r == Ports.GetPortByName(ports, name, true)
    {
      if !isNode then None else Ports.GetPortByName(ports, name, true)
    }

    /**
     * getRelationsByPort: the relations leaving through the port, then the
     * relations arriving at it, each list in its own order.
     */
    method GetRelationsByPort(portName: string) returns (rels: seq<Element>)
      ensures rels == LeavingThrough(fromRels, portName) + ArrivingAt(toRels, portName)
    {
      rels := [];
      var i := 0;
      while i < |fromRels|
        invariant 0 <= i <= |fromRels|
        invariant rels == LeavingThrough(fromRels[..i], portName)
      {
        assert fromRels[..i + 1][..i] == fromRels[..i];
        if LeavesThrough(fromRels[i], portName) {
          rels := rels + [fromRels[i]];
        }
        i := i + 1;
      }
      assert fromRels[..i] == fromRels;
      var head := rels;
      var j := 0;
      while j < |toRels|
        invariant 0 <= j <= |toRels|
        invariant rels == head + ArrivingAt(toRels[..j], portName)
      {
        assert toRels[..j + 1][..j] == toRels[..j];
        if ArrivesAt(toRels[j], portName) {
          rels := rels + [toRels[j]];
        }
        j := j + 1;
      }
      assert toRels[..j] == toRels;
    }

    /**
     * appendRestPortHolder: one more realised slot on the rest template
     * found under `name`, once the counter exists. Incrementing a missing
     * entry yields NaN, which every reader treats like a missing entry.
     */
    method AppendRestPortHolder(name: string)
      modifies this`restPortsCounter
      ensures var t := Ports.GetPortByName(ports, name, false);
              if t.Some? && old(restPortsCounter).Some? then
                var key := if t.value.name.Some? then t.value.name.value else "";
                var c := old(restPortsCounter).value;
                restPortsCounter == Some(if key in c then c[key := c[key] + 1] else c - {key})
              else restPortsCounter == old(restPortsCounter)
    {
      var t := Ports.GetPortByName(ports, name, false);
      if t.Some? && restPortsCounter.Some? {
        var key := if t.value.name.Some? then t.value.name.value else "";
        var c := restPortsCounter.value;
        restPortsCounter := Some(if key in c then c[key := c[key] + 1] else c - {key});
      }
    }

    /**
     * getRestPorts: the realised ports of a rest template, plus a trailing
     * placeholder while the template has room for another. Relations on
     * the template get distinct indices (a taken index moves them on to the
     * next free one) and their port names are rewritten to match; the
     * counter keeps the highest index seen. `fromSlots` / `toSlots` record
     * the index given to each relation of `fromRels` / `toRels`, or -1.
     */
    method GetRestPorts(origin: RestTemplate, appendEmptyPort: bool)
      returns (result: seq<Port>, holder: bool, ghost fromSlots: seq<int>, ghost toSlots: seq<int>)
      requires origin.Valid()
      requires IsRest(origin.port.rest) ==>
                 origin.port.name.Some? && Star(origin.port.name.value) >= 0 && origin.port.restMinIndex >= 0
      requires isNode && NoDuplicates(fromRels) && NoDuplicates(toRels)
      requires forall r :: r in fromRels ==> !r.isNode
      requires forall r :: r in toRels ==> !r.isNode
      modifies this`restPortsCounter, origin, fromRels`fromPort, fromRels`toPort, toRels`fromPort, toRels`toPort
      ensures origin.Valid()
      ensures !IsRest(origin.port.rest) ==> result == [] && !holder && restPortsCounter == old(restPortsCounter)
      ensures IsRest(origin.port.rest) ==>
                var key := origin.port.name.value;
                && restPortsCounter.Some? && key in restPortsCounter.value
                && restPortsCounter == Some(CounterOrEmpty(old(restPortsCounter))[key := restPortsCounter.value[key]])
                && Peak(restPortsCounter.value[key], StartCount(old(restPortsCounter), key, origin.port.restInitialCount),
                        fromSlots, toSlots)
                && SlotsDistinct(fromSlots, toSlots)
      ensures IsRest(origin.port.rest) ==>
                var top := restPortsCounter.value[origin.port.name.value];
                && (holder <==> appendEmptyPort && top < MaxRestCount(origin.port.rest))
                && |result| == (if top < 0 then 0 else top + 1) + (if holder then 1 else 0)
                && (forall i :: 0 <= i < |result| ==> result[i] == Instance(origin.port, RestPortName(origin.port, i)))
      ensures IsRest(origin.port.rest) ==>
                Rebased(old(EndPorts(fromRels, true)), EndPorts(fromRels, true), fromSlots, origin.port, {}, [])
      ensures IsRest(origin.port.rest) ==>
                Rebased(old(EndPorts(toRels, false)), EndPorts(toRels, false), toSlots, origin.port, {}, fromSlots)
      ensures forall r :: r in fromRels && r !in toRels ==> r.toPort == old(r.toPort)
      ensures forall r :: r in toRels && r !in fromRels ==> r.fromPort == old(r.fromPort)
    {
      result, holder, fromSlots, toSlots := [], false, [], [];
      var t := origin.port;
      if !IsRest(t.rest) {
        return;
      }
      var top;
      top, fromSlots, toSlots := Recount(t);
      result, holder := RealisedWithHolder(origin, top, appendEmptyPort);
    }

    /**
     * The counting part of getRestPorts: both `forEach` passes, then the
     * counter of the template is set to the largest of its start value and
     * the indices given out.
     */
    method Recount(t: Port) returns (top: int, ghost fromSlots: seq<int>, ghost toSlots: seq<int>)
      requires t.name.Some? && IsRest(t.rest) && Star(t.name.value) >= 0
      requires isNode && NoDuplicates(fromRels) && NoDuplicates(toRels)
      requires forall r :: r in fromRels ==> !r.isNode
      requires forall r :: r in toRels ==> !r.isNode
      modifies this`restPortsCounter, fromRels`fromPort, fromRels`toPort, toRels`fromPort, toRels`toPort
      ensures restPortsCounter == Some(CounterOrEmpty(old(restPortsCounter))[t.name.value := top])
      ensures Peak(top, StartCount(old(restPortsCounter), t.name.value, t.restInitialCount), fromSlots, toSlots)
      ensures SlotsDistinct(fromSlots, toSlots)
      ensures Rebased(old(EndPorts(fromRels, true)), EndPorts(fromRels, true), fromSlots, t, {}, [])
      ensures Rebased(old(EndPorts(toRels, false)), EndPorts(toRels, false), toSlots, t, {}, fromSlots)
      ensures forall r :: r in fromRels && r !in toRels ==> r.toPort == old(r.toPort)
      ensures forall r :: r in toRels && r !in fromRels ==> r.fromPort == old(r.fromPort)
    {
      var key := t.name.value;
      var start := StartCount(restPortsCounter, key, t.restInitialCount);
      assert this !in fromRels && this !in toRels;
      var fr, tr := fromRels, toRels;
      top, fromSlots, toSlots := RealignBoth(fr, tr, t, start);
      assert fromRels == fr && toRels == tr;
      restPortsCounter := Some(CounterOrEmpty(restPortsCounter)[key := top]);
    }
  }

  /**
   * Both `forEach` passes of getRestPorts: first the relations leaving the
   * node, then those arriving, sharing one set of taken indices.
   */
  method RealignBoth(fromRels: seq<Element>, toRels: seq<Element>, t: Port, start: int)
    returns (top: int, ghost fromSlots: seq<int>, ghost toSlots: seq<int>)
    requires t.name.Some? && Star(t.name.value) >= 0
    requires NoDuplicates(fromRels) && NoDuplicates(toRels)
    modifies fromRels`fromPort, fromRels`toPort, toRels`fromPort, toRels`toPort
    ensures |fromSlots| == |fromRels| && |toSlots| == |toRels|
    ensures Peak(top, start, fromSlots, toSlots) && SlotsDistinct(fromSlots, toSlots)
    ensures Rebased(old(EndPorts(fromRels, true)), EndPorts(fromRels, true), fromSlots, t, {}, [])
    ensures Rebased(old(EndPorts(toRels, false)), EndPorts(toRels, false), toSlots, t, {}, fromSlots)
    ensures forall r :: r in fromRels && r !in toRels ==> r.toPort == old(r.toPort)
    ensures forall r :: r in toRels && r !in fromRels ==> r.fromPort == old(r.fromPort)
  {
    var used;
    used, top, fromSlots := Realign(fromRels, true, t, {}, start);
    ghost var mid, midTop := used, top;
    forall i | 0 <= i < |toRels| ensures toRels[i].toPort == old(toRels[i].toPort) {
      if toRels[i] in fromRels {
        assert EndPort(toRels[i], false) == old(EndPort(toRels[i], false));
      }
    }
    label Between:
    used, top, toSlots := Realign(toRels, false, t, used, top);
    forall i | 0 <= i < |fromRels| ensures fromRels[i].fromPort == old@Between(fromRels[i].fromPort) {
      if fromRels[i] in toRels {
        assert EndPort(fromRels[i], true) == old@Between(EndPort(fromRels[i], true));
      }
    }
    PassesFit(fromSlots, toSlots, mid, used, start, midTop, top);
    assert EndPorts(fromRels, true) == old@Between(EndPorts(fromRels, true));
    assert old@Between(EndPorts(toRels, false)) == old(EndPorts(toRels, false));
    RebasedWiden(old(EndPorts(toRels, false)), EndPorts(toRels, false), toSlots, t, mid, [], {}, fromSlots);
  }

  /**
   * The end of getRestPorts: ports 0 to `top`, then a placeholder port
   * when asked for and the template has room for another.
   */
  method RealisedWithHolder(origin: RestTemplate, top: int, appendEmptyPort: bool)
    returns (result: seq<Port>, holder: bool)
    requires origin.Valid() && origin.port.name.Some? && IsRest(origin.port.rest)
    requires Star(origin.port.name.value) >= 0 && origin.port.restMinIndex >= 0
    modifies origin
    ensures origin.Valid()
    ensures holder <==> appendEmptyPort && top < MaxRestCount(origin.port.rest)
    ensures |result| == (if top < 0 then 0 else top + 1) + (if holder then 1 else 0)
    ensures forall i :: 0 <= i < |result| ==> result[i] == Instance(origin.port, RestPortName(origin.port, i))
  {
    result := RealisedPorts(origin, top);
    holder := false;
    if appendEmptyPort && top < MaxRestCount(origin.port.rest) {
      result := RealiseNext(origin, result, |result|);
      holder := true;
    }
  }

  /** The concrete ports of indices 0 to n - 1 of a rest template. */
  function RealisedSeq(t: Port, n: nat): (r: seq<Port>)
    requires t.name.Some?
    ensures |r| == n && forall k :: 0 <= k < n ==> r[k] == Instance(t, RestPortName(t, k))
  {
    seq(n, k => Instance(t, RestPortName(t, k)))
  }

  /** The loop of getRestPorts that realises indices 0 to `top`. */
  method RealisedPorts(origin: RestTemplate, top: int) returns (result: seq<Port>)
    requires origin.Valid() && origin.port.name.Some? && IsRest(origin.port.rest)
    requires Star(origin.port.name.value) >= 0 && origin.port.restMinIndex >= 0
    modifies origin
    ensures origin.Valid()
    ensures |result| == if top < 0 then 0 else top + 1
    ensures forall k :: 0 <= k < |result| ==> result[k] == Instance(origin.port, RestPortName(origin.port, k))
    ensures result == RealisedSeq(origin.port, |result|)
  {
    result := [];
    var n := 0;
    while n <= top
      invariant 0 <= n && (top >= 0 ==> n <= top + 1) && (top < 0 ==> n == 0)
      invariant result == RealisedSeq(origin.port, n) && origin.Valid()
    {
      result := RealiseNext(origin, result, n);
      n := n + 1;
    }
  }

  /** One step of that loop: the concrete port of the next index is appended. */
  method RealiseNext(origin: RestTemplate, result: seq<Port>, n: nat) returns (result': seq<Port>)
    requires origin.Valid() && origin.port.name.Some? && IsRest(origin.port.rest)
    requires Star(origin.port.name.value) >= 0 && origin.port.restMinIndex >= 0
    requires result == RealisedSeq(origin.port, n)
    modifies origin
    ensures origin.Valid()
    ensures result' == RealisedSeq(origin.port, n + 1)
  {
    var p := origin.GetRestPortAt(n);
    result' := result + [p.value];
    RealisedSnoc(origin.port, n);
  }

  lemma RealisedSnoc(t: Port, n: nat)
    requires t.name.Some?
    ensures RealisedSeq(t, n + 1) == RealisedSeq(t, n) + [Instance(t, RestPortName(t, n))]
  {
    var a, b := RealisedSeq(t, n + 1), RealisedSeq(t, n) + [Instance(t, RestPortName(t, n))];
    assert forall k :: 0 <= k < n + 1 ==> a[k] == b[k];
  }

  /** The port a relation uses at one end: its `fromPort` when leaving, else its `toPort`. */
  function EndPort(rel: Element, leaving: bool): Option<string>
    reads rel
  {
    if leaving then rel.fromPort else rel.toPort
  }

  /** The ports the relations use at one end, in order. */
  ghost function EndPorts(rels: seq<Element>, leaving: bool): (r: seq<Option<string>>)
    reads rels
    ensures |r| == |rels| && forall k :: 0 <= k < |rels| ==> r[k] == EndPort(rels[k], leaving)
  {
    seq(|rels|, k reads rels requires 0 <= k < |rels| => EndPort(rels[k], leaving))
  }

  /** Renames one end of a relation. */
  method SetEndPort(rel: Element, leaving: bool, name: Option<string>)
    modifies rel`fromPort, rel`toPort
    ensures EndPort(rel, leaving) == name
    ensures EndPort(rel, !leaving) == old(EndPort(rel, !leaving))
  {
    if leaving {
      rel.fromPort := name;
    } else {
      rel.toPort := name;
    }
  }

  /**
   * One relation end after realignment on template `t`: a name the template
   * matches now names slot `slot`, no lower than the index it named; any
   * other name is left alone and takes no slot.
   */
  ghost predicate Realigned(before: Option<string>, after: Option<string>, slot: int, t: Port)
  {
    if before.Some? && before.value != [] && MatchRest(t, before.value)
    then RestPortIndex(t, before.value).Some? && slot >= RestPortIndex(t, before.value).value
         && after == Some(RestPortName(t, slot))
    else slot == -1 && after == before
  }

  /**
   * The index a relation end took is the first free one from the index it
   * named: every index in between was taken already, before the pass
   * (`used0`) or by an earlier relation of it (`earlier`).
   */
  ghost predicate FirstFree(before: Option<string>, slot: int, t: Port, used0: set<nat>, earlier: seq<int>)
  {
    slot >= 0 && before.Some? && MatchRest(t, before.value) && RestPortIndex(t, before.value).Some? ==>
      forall j: int :: RestPortIndex(t, before.value).value <= j < slot ==> j in used0 || j in earlier
  }

  /**
   * A `forEach` pass over relation ends whose ports were `before` and are
   * now `after`: each end is realigned to its slot, and its slot is the
   * first free index from its own, not taken before the pass (`used0`,
   * `earlier`) nor by an earlier end of the pass.
   */
  ghost predicate Rebased(before: seq<Option<string>>, after: seq<Option<string>>, slots: seq<int>, t: Port,
                          used0: set<nat>, earlier: seq<int>)
  {
    && |before| == |after| == |slots|
    && forall k :: 0 <= k < |slots| ==>
         && Realigned(before[k], after[k], slots[k], t)
         && FirstFree(before[k], slots[k], t, used0, earlier + slots[..k])
  }

  /** A pass that was rebased against some taken indices is rebased against any record that covers them. */
  lemma RebasedWiden(before: seq<Option<string>>, after: seq<Option<string>>, slots: seq<int>, t: Port,
                     used0: set<nat>, earlier: seq<int>, used1: set<nat>, earlier1: seq<int>)
    requires Rebased(before, after, slots, t, used0, earlier)
    requires forall x :: x in used0 ==> x in used1 || x in earlier1
    requires forall x :: x in earlier ==> x in earlier1
    ensures Rebased(before, after, slots, t, used1, earlier1)
  {
    forall k | 0 <= k < |slots| ensures FirstFree(before[k], slots[k], t, used1, earlier1 + slots[..k]) {
      FirstFreeWiden(before[k], slots[k], t, used0, earlier + slots[..k], used1, earlier1 + slots[..k]);
    }
  }

  /** Taken indices stay taken when the record of them grows. */
  lemma FirstFreeWiden(before: Option<string>, slot: int, t: Port, used0: set<nat>, earlier: seq<int>,
                       used1: set<nat>, earlier1: seq<int>)
    requires FirstFree(before, slot, t, used0, earlier)
    requires forall x :: x in used0 ==> x in used1 || x in earlier1
    requires forall x :: x in earlier ==> x in earlier1
    ensures FirstFree(before, slot, t, used1, earlier1)
  {
  }

  /**
   * One `forEach` pass of getRestPorts over the relations of one side:
   * each relation on the template takes the first index from its own that
   * is not yet taken, and its end is renamed to that index.
   */
  method Realign(rels: seq<Element>, leaving: bool, t: Port, used0: set<nat>, top0: int)
    returns (used: set<nat>, top: int, ghost slots: seq<int>)
    requires t.name.Some? && Star(t.name.value) >= 0
    requires NoDuplicates(rels)
    requires forall x :: x in used0 ==> x <= top0
    modifies rels`fromPort, rels`toPort
    ensures |slots| == |rels| && SlotsFit(slots, used0, used, top0, top)
    ensures Rebased(old(EndPorts(rels, leaving)), EndPorts(rels, leaving), slots, t, used0, [])
    ensures forall r :: r in rels ==> EndPort(r, !leaving) == old(EndPort(r, !leaving))
  {
    used, top, slots := used0, top0, [];
    ghost var ends0, others0 := EndPorts(rels, leaving), EndPorts(rels, !leaving);
    var i := 0;
    while i < |rels|
      invariant 0 <= i <= |rels| && |slots| == i
      invariant SlotsFit(slots, used0, used, top0, top)
      invariant Realigning(rels, leaving, t, ends0, others0, slots)
      invariant FirstFreeUpTo(t, ends0, slots, used0)
    {
      ghost var used1, top1 := used, top;
      var slot;
      used, top, slot := RealignAt(rels, i, leaving, t, ends0, others0, slots, used, top);
      SlotsFitStep(slots, used0, used1, top0, top1, slot, used, top);
      FirstFreeStep(t, ends0, slots, used0, used1, slot);
      slots := slots + [slot];
      i := i + 1;
    }
    RebasedPass(t, ends0, EndPorts(rels, leaving), slots, used0);
  }

  /** A finished pass, each end realigned and each slot the first free one, is rebased. */
  lemma RebasedPass(t: Port, ends0: seq<Option<string>>, after: seq<Option<string>>, slots: seq<int>, used0: set<nat>)
    requires |ends0| == |after| == |slots|
    requires forall k :: 0 <= k < |slots| ==> Realigned(ends0[k], after[k], slots[k], t)
    requires FirstFreeUpTo(t, ends0, slots, used0)
    ensures Rebased(ends0, after, slots, t, used0, [])
  {
    forall k | 0 <= k < |slots| ensures [] + slots[..k] == slots[..k] {
    }
  }

  /**
   * The state of a `forEach` pass after the first |slots| relations: those
   * are realigned against their ports `ends0` from before the pass, the
   * rest still have theirs, and the other ends `others0` are untouched.
   */
  ghost predicate Realigning(rels: seq<Element>, leaving: bool, t: Port, ends0: seq<Option<string>>,
                             others0: seq<Option<string>>, slots: seq<int>)
    reads rels
  {
    RealignedEnds(EndPorts(rels, leaving), EndPorts(rels, !leaving), t, ends0, others0, slots)
  }

  /** `Realigning` on the ends' port names, `ends` at the realigned end and `others` at the other. */
  ghost predicate RealignedEnds(ends: seq<Option<string>>, others: seq<Option<string>>, t: Port,
                                ends0: seq<Option<string>>, others0: seq<Option<string>>, slots: seq<int>)
  {
    && |slots| <= |ends| == |others| == |ends0| == |others0|
    && (forall k :: 0 <= k < |slots| ==> Realigned(ends0[k], ends[k], slots[k], t))
    && (forall k :: |slots| <= k < |ends| ==> ends[k] == ends0[k])
    && others == others0
  }

  /** Realigning the next end, and nothing else, extends `RealignedEnds` by its slot. */
  lemma RealignedEndsStep(ends: seq<Option<string>>, others: seq<Option<string>>, t: Port,
                          ends0: seq<Option<string>>, others0: seq<Option<string>>, slots: seq<int>,
                          name: Option<string>, slot: int)
    requires RealignedEnds(ends, others, t, ends0, others0, slots) && |slots| < |ends|
    requires Realigned(ends[|slots|], name, slot, t)
    ensures RealignedEnds(ends[|slots| := name], others, t, ends0, others0, slots + [slot])
  {
  }

  /** One iteration of the `forEach` pass: realigns the next relation. */
  method RealignAt(rels: seq<Element>, i: nat, leaving: bool, t: Port, ghost ends0: seq<Option<string>>,
                   ghost others0: seq<Option<string>>, ghost slots0: seq<int>, used0: set<nat>, top0: int)
    returns (used: set<nat>, top: int, slot: int)
    requires t.name.Some? && Star(t.name.value) >= 0
    requires NoDuplicates(rels) && i == |slots0| < |rels| == |ends0|
    requires forall x :: x in used0 ==> x <= top0
    requires Realigning(rels, leaving, t, ends0, others0, slots0)
    modifies {rels[i]}`fromPort, {rels[i]}`toPort
    ensures Realigning(rels, leaving, t, ends0, others0, slots0 + [slot])
    ensures top >= top0 && forall x :: x in used ==> x <= top
    ensures top == top0 || (slot >= 0 && top == slot)
    ensures slot < 0 ==> used == used0
    ensures slot >= 0 ==> slot !in used0 && used == used0 + {slot} && slot <= top
    ensures FirstFree(ends0[i], slot, t, used0, [])
  {
    ghost var ends, others := EndPorts(rels, leaving), EndPorts(rels, !leaving);
    used, top, slot := RealignOne(rels[i], leaving, t, used0, top0);
    forall k | 0 <= k < |rels| && k != i
      ensures EndPort(rels[k], leaving) == ends[k] && EndPort(rels[k], !leaving) == others[k]
    {
      assert rels[k] != rels[i];
    }
    assert EndPorts(rels, leaving) == ends[i := EndPort(rels[i], leaving)];
    assert EndPorts(rels, !leaving) == others;
    RealignedEndsStep(ends, others, t, ends0, others0, slots0, EndPort(rels[i], leaving), slot);
  }

  /** The next end of a pass took the first index free of everything taken so far. */
  lemma FirstFreeStep(t: Port, ends0: seq<Option<string>>, slots0: seq<int>, passUsed: set<nat>,
                      used0: set<nat>, slot: int)
    requires FirstFreeUpTo(t, ends0, slots0, passUsed) && |slots0| < |ends0|
    requires FirstFree(ends0[|slots0|], slot, t, used0, [])
    requires forall x :: x in used0 ==> x in passUsed || x in slots0
    ensures FirstFreeUpTo(t, ends0, slots0 + [slot], passUsed)
  {
    var slots := slots0 + [slot];
    forall k | 0 <= k < |slots| ensures FirstFree(ends0[k], slots[k], t, passUsed, slots[..k]) {
      if k < |slots0| {
        assert slots[..k] == slots0[..k];
      } else {
        assert slots[..k] == slots0;
        FirstFreeWiden(ends0[k], slot, t, used0, [], passUsed, slots0);
      }
    }
  }

  /** Every relation end of a pass so far took the first free index from its own. */
  ghost predicate FirstFreeUpTo(t: Port, ends0: seq<Option<string>>, slots: seq<int>, used0: set<nat>)
  {
    && |slots| <= |ends0|
    && forall k :: 0 <= k < |slots| ==> FirstFree(ends0[k], slots[k], t, used0, slots[..k])
  }

  /**
   * The indices handed out so far: within the counter, taken, new to the
   * pass, and all different.
   */
  ghost predicate SlotsFit(slots: seq<int>, used0: set<nat>, used: set<nat>, top0: int, top: int)
  {
    && top >= top0 && used0 <= used
    && (forall x :: x in used ==> x <= top)
    && (forall k :: 0 <= k < |slots| && slots[k] >= 0 ==> slots[k] <= top && slots[k] in used && slots[k] !in used0)
    && (forall k, l :: 0 <= k < l < |slots| && slots[k] >= 0 ==> slots[k] != slots[l])
    && (top == top0 || top in slots)
    && (forall x :: x in used ==> x in used0 || x in slots)
  }

  /** One more relation end realigned keeps the indices fitting. */
  lemma SlotsFitStep(slots: seq<int>, used0: set<nat>, used: set<nat>, top0: int, top: int,
                     slot: int, used': set<nat>, top': int)
    requires SlotsFit(slots, used0, used, top0, top)
    requires top' >= top && forall x :: x in used' ==> x <= top'
    requires top' == top || (slot >= 0 && top' == slot)
    requires slot < 0 ==> used' == used
    requires slot >= 0 ==> slot !in used && used' == used + {slot} && slot <= top'
    ensures SlotsFit(slots + [slot], used0, used', top0, top')
  {
    var s := slots + [slot];
    forall k, l | 0 <= k < l < |s| && s[k] >= 0 ensures s[k] != s[l] {
      if l == |slots| {
        assert s[k] in used;
      }
    }
  }

  /** The body of one `forEach` step of getRestPorts: realigns one relation end. */
  method RealignOne(rel: Element, leaving: bool, t: Port, used0: set<nat>, top0: int)
    returns (used: set<nat>, top: int, slot: int)
    requires t.name.Some? && Star(t.name.value) >= 0
    requires forall x :: x in used0 ==> x <= top0
    modifies rel`fromPort, rel`toPort
    ensures top >= top0 && forall x :: x in used ==> x <= top
    ensures Realigned(old(EndPort(rel, leaving)), EndPort(rel, leaving), slot, t)
    ensures EndPort(rel, !leaving) == old(EndPort(rel, !leaving))
    ensures slot < 0 ==> used == used0
    ensures slot >= 0 ==> slot !in used0 && used == used0 + {slot} && slot <= top
    ensures top == top0 || (slot >= 0 && top == slot)
    ensures FirstFree(old(EndPort(rel, leaving)), slot, t, used0, [])
  {
    used, top := used0, top0;
    var name := EndPort(rel, leaving);
    if name.Some? && name.value != [] && MatchRest(t, name.value) {
      var idx := RestPortIndex(t, name.value).value;
      ghost var first := idx;
      while idx in used
        invariant idx >= first
        invariant forall j: int :: first <= j < idx ==> j in used0
        decreases top - idx
      {
        idx := idx + 1;
      }
      used := used + {idx};
      if idx > top {
        top := idx;
      }
      SetEndPort(rel, leaving, Some(RestPortName(t, idx)));
      slot := idx;
    } else {
      slot := -1;
    }
  }


  // ---------------------------------------------------------------------
  // Helpers over element lists
  // ---------------------------------------------------------------------

  /** `rel.fromPort && rel.fromPort === name`. */
  predicate LeavesThrough(rel: Element, name: string)
    reads rel
  {
    rel.fromPort.Some? && rel.fromPort.value != [] && rel.fromPort.value == name
  }

  /** `rel.toPort && rel.toPort === name`. */
  predicate ArrivesAt(rel: Element, name: string)
    reads rel
  {
    rel.toPort.Some? && rel.toPort.value != [] && rel.toPort.value == name
  }

  /** The relations of `rels` leaving through the port `name`, in order. */
  function LeavingThrough(rels: seq<Element>, name: string): (r: seq<Element>)
    reads set e | e in rels
    ensures forall x :: x in r ==> x in rels && LeavesThrough(x, name)
    ensures forall x :: x in rels && LeavesThrough(x, name) ==> x in r
  {
    if rels == [] then []
    else
      var last := rels[|rels| - 1];
      LeavingThrough(rels[..|rels| - 1], name) + (if LeavesThrough(last, name) then [last] else [])
  }

  /** The relations of `rels` arriving at the port `name`, in order. */
  function ArrivingAt(rels: seq<Element>, name: string): (r: seq<Element>)
    reads set e | e in rels
    ensures forall x :: x in r ==> x in rels && ArrivesAt(x, name)
    ensures forall x :: x in rels && ArrivesAt(x, name) ==> x in r
  {
    if rels == [] then []
    else
      var last := rels[|rels| - 1];
      ArrivingAt(rels[..|rels| - 1], name) + (if ArrivesAt(last, name) then [last] else [])
  }

  /** The counter object, created empty when missing. */
  function CounterOrEmpty(c: Option<map<string, int>>): map<string, int>
  {
    if c.Some? then c.value else map[]
  }

  /** A missing or zero counter restarts at `restInitialCount - 1`. */
  function StartCount(c: Option<map<string, int>>, key: string, initial: int): (n: int)
    ensures c.Some? && key in c.value && c.value[key] != 0 ==> n == c.value[key]
    ensures !(c.Some? && key in c.value && c.value[key] != 0) ==> n == initial - 1
  {
    if c.Some? && key in c.value && c.value[key] != 0 then c.value[key] else initial - 1
  }

  /** `top` is the largest of `start` and the indices given out to either list. */
  ghost predicate Peak(top: int, start: int, a: seq<int>, b: seq<int>)
  {
    && top >= start
    && (forall k :: 0 <= k < |a| && a[k] >= 0 ==> a[k] <= top)
    && (forall k :: 0 <= k < |b| && b[k] >= 0 ==> b[k] <= top)
    && (top == start || top in a || top in b)
  }

  /** Two passes in a row, the second starting from what the first took, give out each index once. */
  lemma PassesFit(a: seq<int>, b: seq<int>, mid: set<nat>, used: set<nat>, start: int, midTop: int, top: int)
    requires SlotsFit(a, {}, mid, start, midTop) && SlotsFit(b, mid, used, midTop, top)
    ensures Peak(top, start, a, b) && SlotsDistinct(a, b)
  {
    forall k, l | 0 <= k < |a| && 0 <= l < |b| && a[k] >= 0 ensures a[k] != b[l] {
      assert a[k] in mid;
    }
  }

  /** Every index given out is given out once, across both relation lists. */
  predicate SlotsDistinct(a: seq<int>, b: seq<int>)
  {
    && (forall k, l :: 0 <= k < l < |a| && a[k] >= 0 ==> a[k] != a[l])
    && (forall k, l :: 0 <= k < l < |b| && b[k] >= 0 ==> b[k] != b[l])
    && (forall k, l :: 0 <= k < |a| && 0 <= l < |b| && a[k] >= 0 ==> a[k] != b[l])
  }
}
