/**
 * Element normalisation: the per-property derivation rules that turn a raw
 * element descriptor into element data (`basicElementProps`,
 * `basicRelationProps`, `basicNodeProps` and
 * `FlowChartElementType.prototype.getElementData` in src/js/flowchart.js).
 *
 * A descriptor is modelled with typed fields for the keys the rules compute
 * (`id`, `order`, `from`, `to`, `fromPort`, `toPort`, `position`, `data`)
 * and a bag `extra` holding every other raw key.
 */
module ElementProps {
  import opened Base

  /**
   * The values that raw descriptors, data bags and exported records carry:
   * scalars, and the two position objects `getPosition` returns (a node's
   * `{left, top}`, a relation's `{shape}`).
   */
  datatype Value =
    | Str(s: string) | Num(n: int) | Bool(b: bool) | Null
    | Place(left: Option<real>, top: Option<real>)
    | CurveShape(shape: Option<map<string, real>>)

  // ---------------------------------------------------------------------
  // id
  // ---------------------------------------------------------------------

  datatype IdError = ColonInId(id: string) | DotInId(id: string)

  /** `:` and `.` are structural separators (`node.port`), never part of an id. */
  predicate LegalId(s: string)
  {
    forall i :: 0 <= i < |s| ==> s[i] != ':' && s[i] != '.'
  }

  /**
   * The `id` rule: a given id is checked for `:` first, then for `.`, and
   * returned unchanged; a missing id is replaced by `freshId`, which stands
   * for the value of `$.zui.uuid()`.
   */
  function ResolveId(value: Option<string>, freshId: string): (r: Result<string, IdError>)
    ensures value.None? ==> r == Ok(freshId)
    ensures value.Some? ==> (r.Ok? <==> LegalId(value.value))
    ensures value.Some? && r.Ok? ==> r.value == value.value
    ensures r.Err? ==> value.Some? && r.error.id == value.value
    ensures r.Err? && r.error.DotInId? ==> ':' !in value.value
  {
    match value
    case None => Ok(freshId)
    case Some(v) =>
      if ':' in v then Err(ColonInId(v))
      else if '.' in v then Err(DotInId(v))
      else Ok(v)
  }

  // ---------------------------------------------------------------------
  // order
  // ---------------------------------------------------------------------

  /** Relations are numbered after nodes by this offset. */
  const RelationOrderOffset: int := 10000

  /**
   * The `order` rule over the module-wide counter `idSeed`: a given order is
   * kept and the counter is left alone; otherwise the order is the counter
   * (plus the relation offset) and the counter moves on. Returns the order
   * and the next counter value.
   */
  function AssignOrder(value: Option<int>, isRelation: bool, seed: int): (r: (int, int))
    ensures value.Some? ==> r == (value.value, seed)
    ensures value.None? ==> r.1 == seed + 1
    ensures value.None? ==> r.0 == seed + (if isRelation then RelationOrderOffset else 0)
  {
    match value
    case Some(o) => (o, seed)
    case None => ((if isRelation then RelationOrderOffset else 0) + seed, seed + 1)
  }

  /** Orders given to a run of descriptors `(order, isRelation)` by one counter. */
  function AssignOrders(reqs: seq<(Option<int>, bool)>, seed: int): (r: seq<int>)
    ensures |r| == |reqs|
  {
    if reqs == [] then []
    else
      var (o, next) := AssignOrder(reqs[0].0, reqs[0].1, seed);
      [o] + AssignOrders(reqs[1..], next)
  }

  /** Counter value after a run of descriptors. */
  function SeedAfter(reqs: seq<(Option<int>, bool)>, seed: int): (r: int)
    ensures r >= seed
  {
    if reqs == [] then seed else SeedAfter(reqs[1..], AssignOrder(reqs[0].0, reqs[0].1, seed).1)
  }

  lemma {:induction false} SeedAfterCounts(reqs: seq<(Option<int>, bool)>, seed: int, i: nat)
    requires i < |reqs|
    requires reqs[i].0.None?
    ensures SeedAfter(reqs[..i], seed) < SeedAfter(reqs[..i + 1], seed)
    ensures AssignOrders(reqs, seed)[i]
         == SeedAfter(reqs[..i], seed) + (if reqs[i].1 then RelationOrderOffset else 0)
  {
    var (o, next) := AssignOrder(reqs[0].0, reqs[0].1, seed);
    assert reqs[..1] == [reqs[0]];
    assert SeedAfter(reqs[..1], seed) == next;
    if i > 0 {
      var rest := reqs[1..];
      assert reqs[..i][1..] == rest[..i - 1];
      assert reqs[..i + 1][1..] == rest[..i];
      SeedAfterCounts(rest, next, i - 1);
    }
  }

  lemma {:induction false} SeedAfterMonotone(reqs: seq<(Option<int>, bool)>, seed: int, i: nat, j: nat)
    requires i <= j <= |reqs|
    ensures SeedAfter(reqs[..i], seed) <= SeedAfter(reqs[..j], seed)
  {
    if i > 0 {
      var next := AssignOrder(reqs[0].0, reqs[0].1, seed).1;
      assert reqs[..i][1..] == reqs[1..][..i - 1];
      assert reqs[..j][1..] == reqs[1..][..j - 1];
      SeedAfterMonotone(reqs[1..], next, i - 1, j - 1);
    }
  }

  /**
   * Orders taken from the counter are unique and increasing: of two elements
   * of the same kind that both got their order from the counter, the one
   * normalised later has the larger order.
   */
  lemma OrdersFromCounterIncrease(reqs: seq<(Option<int>, bool)>, seed: int, i: nat, j: nat)
    requires i < j < |reqs|
    requires reqs[i].0.None? && reqs[j].0.None? && reqs[i].1 == reqs[j].1
    ensures AssignOrders(reqs, seed)[i] < AssignOrders(reqs, seed)[j]
  {
    SeedAfterCounts(reqs, seed, i);
    SeedAfterCounts(reqs, seed, j);
    SeedAfterMonotone(reqs, seed, i + 1, j);
  }

  // ---------------------------------------------------------------------
  // "node.port" references
  // ---------------------------------------------------------------------

  /** String.prototype.split('.'). */
  function SplitDot(s: string): (r: seq<string>)
    ensures |r| >= 1
    ensures forall i :: 0 <= i < |r| ==> '.' !in r[i]
    decreases |s|
  {
    if '.' !in s then [s]
    else
      var k := IndexOf(s, '.');
      [s[..k]] + SplitDot(s[k + 1..])
  }

  /** Array.prototype.join('.'). */
  function JoinDot(parts: seq<string>): string
    requires |parts| >= 1
  {
    if |parts| == 1 then parts[0] else parts[0] + "." + JoinDot(parts[1..])
  }

  /** Splitting undoes joining, for parts without a dot. */
  lemma {:induction false} SplitJoinDot(parts: seq<string>)
    requires |parts| >= 1
    requires forall i :: 0 <= i < |parts| ==> '.' !in parts[i]
    ensures SplitDot(JoinDot(parts)) == parts
  {
    if |parts| > 1 {
      SplitJoinHead(parts);
      SplitJoinDot(parts[1..]);
      assert parts == [parts[0]] + parts[1..];
    }
  }

  /** Splitting a join stops first after the first part, when that part has no dot. */
  lemma SplitJoinHead(parts: seq<string>)
    requires |parts| > 1 && '.' !in parts[0]
    ensures SplitDot(JoinDot(parts)) == [parts[0]] + SplitDot(JoinDot(parts[1..]))
  {
    var s := JoinDot(parts);
    var tail := JoinDot(parts[1..]);
    var k := |parts[0]|;
    assert s == parts[0] + "." + tail;
    IndexOfAfter(parts[0], '.', tail);
    SplitDotAt(s, k);
    assert s[..k] == parts[0] && s[k + 1..] == tail;
  }

  /** Joining undoes splitting. */
  lemma {:induction false} JoinSplitDot(s: string)
    ensures JoinDot(SplitDot(s)) == s
    decreases |s|
  {
    var k := IndexOf(s, '.');
    if k >= 0 {
      var head, rest := s[..k], s[k + 1..];
      SplitDotAt(s, k);
      JoinSplitDot(rest);
      JoinDotCons(head, SplitDot(rest));
    }
  }

  /** One step of `SplitDot`, and the string around its first dot. */
  lemma SplitDotAt(s: string, k: int)
    requires k == IndexOf(s, '.') && k >= 0
    ensures SplitDot(s) == [s[..k]] + SplitDot(s[k + 1..])
    ensures s == s[..k] + "." + s[k + 1..]
  {
    Around(s, k);
  }

  lemma JoinDotCons(head: string, parts: seq<string>)
    requires |parts| >= 1
    ensures JoinDot([head] + parts) == head + "." + JoinDot(parts)
  {
    assert ([head] + parts)[1..] == parts;
  }

  /** The `from` / `to` rule: keep the node part of a `node.port` reference. */
  function EndpointNode(value: Option<string>): (r: Option<string>)
    ensures r.Some? ==> '.' !in r.value
    ensures value.Some? && value.value != [] ==> r.Some? && r.value <= value.value
    ensures value.Some? && value.value != [] && '.' !in value.value ==> r == value
    ensures (value.None? || value.value == []) ==> r == value
  {
    match value
    case None => None
    case Some(v) =>
      if v == [] then value
      else
        JoinSplitDot(v);
        var parts := SplitDot(v);
        assert |parts| > 1 ==> v == parts[0] + "." + JoinDot(parts[1..]);
        Some(parts[0])
  }

  /**
   * The `fromPort` / `toPort` rule: an explicit non-empty port wins;
   * otherwise the port part of the raw `from` / `to` reference, if the
   * reference is non-empty (undefined when it has no `.`).
   */
  function EndpointPort(value: Option<string>, endpoint: Option<string>): (r: Option<string>)
    ensures value.Some? && value.value != [] ==> r == value
    ensures r.Some? && r != value ==> '.' !in r.value && endpoint.Some?
  {
    if (value.None? || value.value == []) && endpoint.Some? && endpoint.value != [] then
      var parts := SplitDot(endpoint.value);
      if |parts| > 1 then Some(parts[1]) else None
    else value
  }

  /** A reference written as `node.port` is split back into its node and port. */
  lemma EndpointRoundTrip(node: string, port: string)
    requires node != [] && '.' !in node && '.' !in port
    ensures EndpointNode(Some(node + "." + port)) == Some(node)
    ensures EndpointPort(None, Some(node + "." + port)) == Some(port)
    ensures EndpointPort(Some([]), Some(node + "." + port)) == Some(port)
  {
    var parts := [node, port];
    assert JoinDot(parts[1..]) == port;
    assert JoinDot(parts) == node + "." + port;
    SplitJoinDot(parts);
  }

  /** A bare node id carries no port. */
  lemma BareEndpoint(node: string)
    requires node != [] && '.' !in node
    ensures EndpointNode(Some(node)) == Some(node)
    ensures EndpointPort(None, Some(node)) == None
  {
  }

  // ---------------------------------------------------------------------
  // Property tables and the data bag
  // ---------------------------------------------------------------------

  /**
   * A property rule: `false` in the source (internal, never derived from raw
   * data), a type name string (the raw value is copied), or a function.
   */
  datatype Rule = Hidden | Copied | Computed

  /** A key counts as a property of the type only when its rule is truthy. */
  predicate IsLiveProp(props: map<string, Rule>, k: string)
  {
    k in props && props[k] != Hidden
  }

  const ElementProps: map<string, Rule> := map[
    "id" := Computed, "type" := Computed, "text" := Computed, "order" := Computed,
    "data" := Computed, "style" := Copied, "textStyle" := Copied, "className" := Copied,
    "visible" := Hidden, "$ele" := Hidden, "$text" := Hidden, "bounds" := Hidden,
    "elementType" := Hidden, "isRelation" := Hidden, "isNode" := Hidden, "flowChart" := Hidden]

  const RelationProps: map<string, Rule> := map[
    "lineStyle" := Copied, "lineWidth" := Copied, "lineColor" := Copied, "lineShape" := Copied,
    "arrowSize" := Copied, "position" := Computed, "hideArrow" := Computed,
    "from" := Computed, "to" := Computed, "fromPort" := Computed, "toPort" := Computed,
    "fromIndex" := Hidden, "toIndex" := Hidden, "fromNode" := Hidden, "toNode" := Hidden,
    "beginSideRels" := Hidden, "endSideRels" := Hidden] + ElementProps

  const NodeProps: map<string, Rule> := map[
    "borderStyle" := Copied, "borderWidth" := Copied, "borderColor" := Copied,
    "shapeStyle" := Copied, "position" := Computed, "hideArrowToSelf" := Copied,
    "width" := Copied, "height" := Copied, "maxWidth" := Copied, "minWidth" := Copied,
    "siblingsIndex" := Hidden, "fromRels" := Hidden, "toRels" := Hidden,
    "children" := Hidden, "parents" := Hidden] + ElementProps

  /**
   * The `data` rule: a copy of the raw `data` object, plus every raw key
   * that is not a live property of the type (raw values win).
   */
  function FoldData(data: map<string, Value>, record: map<string, Value>, props: map<string, Rule>)
    : (r: map<string, Value>)
    ensures r.Keys == data.Keys + (set k | k in record && !IsLiveProp(props, k))
    ensures forall k :: k in record && !IsLiveProp(props, k) ==> r[k] == record[k]
    ensures forall k :: k in data && (k !in record || IsLiveProp(props, k)) ==> r[k] == data[k]
    ensures forall k :: k in r && k !in data ==> k in record && !IsLiveProp(props, k)
  {
    var unknown := map k | k in record && !IsLiveProp(props, k) :: record[k];
    data + unknown
  }

  // ---------------------------------------------------------------------
  // Node position
  // ---------------------------------------------------------------------

  datatype Side = Top | Right | Bottom | Left

  /** The `SIDES` lookup table. */
  function SideNamed(s: string): Option<Side>
  {
    if s == "top" then Some(Top)
    else if s == "right" then Some(Right)
    else if s == "bottom" then Some(Bottom)
    else if s == "left" then Some(Left)
    else None
  }

  /** `position.custom`: undefined, `true`, or `'auto'` (set by directional layout). */
  datatype Custom = Unset | Manual | AutoCustom

  datatype NodePosition = NodePosition(
    left: Option<real>, top: Option<real>,
    centerLeft: Option<real>, centerTop: Option<real>,
    direction: Option<string>, from: Option<string>,
    custom: Custom)

  const NoPosition := NodePosition(None, None, None, None, None, None, Unset)

  /** A raw position is usable when it pins a corner, a centre, or an anchor. */
  predicate PinsNode(p: NodePosition)
  {
    || (p.left.Some? && p.top.Some?)
    || (p.centerLeft.Some? && p.centerTop.Some?)
    || (p.direction.Some? && SideNamed(p.direction.value).Some? && p.from.Some?)
  }

  /**
   * The node `position` rule: a usable raw position is kept and marked
   * custom (a `custom` value it already carries wins); anything else becomes
   * the empty position.
   */
  function NodePositionRule(value: Option<NodePosition>): (r: NodePosition)
    ensures r.custom != Unset <==> value.Some? && PinsNode(value.value)
    ensures r.custom == Unset ==> r == NoPosition
    ensures r.custom != Unset ==> r.(custom := value.value.custom) == value.value
    ensures r.custom != Unset && value.value.custom == Unset ==> r.custom == Manual
  {
    if value.Some? && PinsNode(value.value) then
      value.value.(custom := if value.value.custom == Unset then Manual else value.value.custom)
    else NoPosition
  }

  /**
   * The relation `position` rule: a raw position that carries a `shape`
   * object (`shape` here) is kept whole and marked custom, unless it carries
   * a `custom` value of its own; anything else becomes the empty position.
   */
  function RelationPositionRule(value: Option<NodePosition>, shape: Option<map<string, real>>): (r: NodePosition)
    ensures r.custom != Unset <==> shape.Some?
    ensures shape.None? ==> r == NoPosition
    ensures shape.Some? ==> var raw := if value.Some? then value.value else NoPosition;
      && r.(custom := raw.custom) == raw
      && r.custom == (if raw.custom == Unset then Manual else raw.custom)
  {
    if shape.Some? then
      var raw := if value.Some? then value.value else NoPosition;
      raw.(custom := if raw.custom == Unset then Manual else raw.custom)
    else NoPosition
  }

  // ---------------------------------------------------------------------
  // getElementData
  // ---------------------------------------------------------------------

  /**
   * Raw element descriptor. `shape` is the relation's `position.shape`
   * object of persisted curve offsets.
   */
  datatype Descriptor = Descriptor(
    id: Option<string>, order: Option<int>,
    from: Option<string>, to: Option<string>,
    fromPort: Option<string>, toPort: Option<string>,
    position: Option<NodePosition>, shape: Option<map<string, real>>,
    data: map<string, Value>, extra: map<string, Value>)

  /**
   * An element type: its name, its kind, its flags, its default `text`
   * and the props its own definition adds to (or overrides in) the basic
   * table.
   */
  datatype ElementType = ElementType(
    name: string, isRelation: bool, beginType: bool, endType: bool,
    text: Option<Value>, extraProps: map<string, Rule>)

  /**
   * The prop table of a type. A type is built by a deep `$.extend` of the
   * basic type and then the type's own definition, so its own props win.
   */
  function PropsOf(t: ElementType): (r: map<string, Rule>)
    ensures forall k :: k in t.extraProps ==> k in r && r[k] == t.extraProps[k]
    ensures forall k :: k in r && k !in t.extraProps ==> k in BasicProps(t.isRelation) && r[k] == BasicProps(t.isRelation)[k]
    ensures r.Keys == BasicProps(t.isRelation).Keys + t.extraProps.Keys
  {
    BasicProps(t.isRelation) + t.extraProps
  }

  function BasicProps(isRelation: bool): map<string, Rule>
  {
    if isRelation then RelationProps else NodeProps
  }

  /** `String(value)` for the scalar values. */
  function Stringify(v: Value): string
  {
    match v
    case Str(s) => s
    case Num(n) => IntString(n)
    case Bool(b) => if b then "true" else "false"
    case Null => "null"
    case _ => "[object Object]"
  }

  /** JavaScript truthiness of a raw value; a missing value is falsy. */
  predicate IsTruthy(v: Option<Value>)
  {
    v.Some? && match v.value
      case Str(s) => s != []
      case Num(n) => n != 0
      case Bool(b) => b
      case Null => false
      case _ => true
  }

  /**
   * The `text` rule: a `null` text falls back to the type's text; a text
   * still missing or `null` becomes the empty string; anything else is
   * turned into a string.
   */
  function TextRule(value: Option<Value>, typeText: Option<Value>): (r: string)
    ensures value.Some? && value.value != Null ==> r == Stringify(value.value)
    ensures value.None? ==> r == []
    ensures value == Some(Null) && typeText.Some? && typeText.value != Null ==> r == Stringify(typeText.value)
    ensures value == Some(Null) && (typeText.None? || typeText == Some(Null)) ==> r == []
  {
    var v := if value == Some(Null) then typeText else value;
    if v.None? || v == Some(Null) then [] else Stringify(v.value)
  }

  /**
   * The relation `hideArrow` rule: a given value is read for truthiness; a
   * missing one hides the arrow exactly when `arrowSize` is falsy.
   */
  function HideArrowRule(value: Option<Value>, arrowSize: Option<Value>): (r: bool)
    ensures value.Some? ==> (r <==> IsTruthy(value))
    ensures value.None? ==> (r <==> !IsTruthy(arrowSize))
  {
    if value.None? then !IsTruthy(arrowSize) else IsTruthy(value)
  }

  /** A raw key of the descriptor's bag of other keys, if present. */
  function Raw(d: Descriptor, k: string): Option<Value>
  {
    if k in d.extra then Some(d.extra[k]) else None
  }

  function OptStr(key: string, v: Option<string>): map<string, Value>
  {
    if v.Some? then map[key := Str(v.value)] else map[]
  }

  /** The raw descriptor seen as one flat record, as `$.each(elementData, ...)` sees it. */
  function RawRecord(d: Descriptor): map<string, Value>
  {
    d.extra + OptStr("id", d.id)
      + (if d.order.Some? then map["order" := Num(d.order.value)] else map[])
      + OptStr("from", d.from) + OptStr("to", d.to)
      + OptStr("fromPort", d.fromPort) + OptStr("toPort", d.toPort)
  }

  datatype ElementData = ElementData(
    id: string, typeName: string, isRelation: bool, order: int, text: string, hideArrow: Option<bool>,
    data: map<string, Value>, copied: map<string, Value>,
    from: Option<string>, to: Option<string>,
    fromPort: Option<string>, toPort: Option<string>,
    position: NodePosition, shape: Option<map<string, real>>)

  /**
   * getElementData: applies the rules of the type's property table to a
   * descriptor. `seed` is the order counter and `freshId` the id the source
   * would draw from `$.zui.uuid()`. The `id` rule runs before the `order`
   * rule, so a rejected id leaves the counter untouched. Returns the element
   * data and the next counter value.
   */
  function Normalize(d: Descriptor, t: ElementType, seed: int, freshId: string)
    : (r: Result<(ElementData, int), IdError>)
    ensures r.Ok? <==> d.id.None? || LegalId(d.id.value)
    ensures r.Ok? ==> r.value.0.id == (if d.id.Some? then d.id.value else freshId)
    ensures r.Ok? ==> r.value.0.typeName == t.name && r.value.0.isRelation == t.isRelation
    ensures r.Ok? ==> (r.value.1 == seed <==> d.order.Some?)
    ensures r.Ok? && d.order.Some? ==> r.value.0.order == d.order.value
    ensures r.Ok? && d.order.None? ==> r.value.1 == seed + 1
    ensures r.Ok? ==> (r.value.0.order, r.value.1) == AssignOrder(d.order, t.isRelation, seed)
    ensures r.Ok? ==> r.value.0.data.Keys
                       == d.data.Keys + (set k | k in RawRecord(d) && !IsLiveProp(PropsOf(t), k))
    ensures r.Ok? ==> r.value.0 == Build(d, t, r.value.0.id, seed)
  {
    match ResolveId(d.id, freshId)
    case Err(e) => Err(e)
    case Ok(id) => Ok((Build(d, t, id, seed), AssignOrder(d.order, t.isRelation, seed).1))
  }

  /**
   * The element data getElementData builds once the id is settled: every
   * field comes from its rule.
   */
  function Build(d: Descriptor, t: ElementType, id: string, seed: int): (ed: ElementData)
    ensures ed.id == id && ed.typeName == t.name && ed.isRelation == t.isRelation
    ensures ed.order == AssignOrder(d.order, t.isRelation, seed).0
    ensures ed.text == TextRule(Raw(d, "text"), t.text)
    ensures ed.data == FoldData(d.data, RawRecord(d), PropsOf(t))
    ensures forall k :: k in ed.copied <==> k in RawRecord(d) && k in PropsOf(t) && PropsOf(t)[k] == Copied
    ensures forall k :: k in ed.copied ==> ed.copied[k] == RawRecord(d)[k]
    ensures ed.hideArrow.Some? <==> t.isRelation
    ensures t.isRelation ==>
              && ed.hideArrow == Some(HideArrowRule(Raw(d, "hideArrow"), Raw(d, "arrowSize")))
              && ed.from == EndpointNode(d.from) && ed.to == EndpointNode(d.to)
              && ed.fromPort == EndpointPort(d.fromPort, d.from)
              && ed.toPort == EndpointPort(d.toPort, d.to)
    ensures t.isRelation ==>
              && ed.shape == d.shape
              && ed.position == RelationPositionRule(d.position, d.shape)
              && (ed.position.custom != Unset <==> d.shape.Some?)
              && (d.shape.Some? && d.position.Some? ==> ed.position.(custom := d.position.value.custom) == d.position.value)
    ensures !t.isRelation ==>
              && ed.position == NodePositionRule(d.position)
              && ed.from.None? && ed.to.None? && ed.fromPort.None? && ed.toPort.None? && ed.shape.None?
  {
    var props := PropsOf(t);
    var order := AssignOrder(d.order, t.isRelation, seed).0;
    var record := RawRecord(d);
    var copied := map k | k in record && k in props && props[k] == Copied :: record[k];
    var data := FoldData(d.data, record, props);
    if t.isRelation then
      ElementData(id, t.name, true, order, TextRule(Raw(d, "text"), t.text),
                  Some(HideArrowRule(Raw(d, "hideArrow"), Raw(d, "arrowSize"))), data, copied,
                  EndpointNode(d.from), EndpointNode(d.to),
                  EndpointPort(d.fromPort, d.from), EndpointPort(d.toPort, d.to),
                  RelationPositionRule(d.position, d.shape), d.shape)
    else
      ElementData(id, t.name, false, order, TextRule(Raw(d, "text"), t.text), None, data, copied,
                  None, None, None, None,
                  NodePositionRule(d.position), None)
  }
}
