/**
 * The port model of a node type: `FlowChartElementPort`, its repeatable
 * ("rest") ports, `createPortsMap` and `FlowChartElementType.getPortByName`
 * in src/js/flowchart.js.
 *
 * A rest port is a template whose name holds one `*`, such as `in*`; the
 * concrete ports `in1`, `in2`, ... are materialised from it on demand. A
 * template name is read as prefix + decimal digits + suffix.
 */
module Ports {
  import opened Base
  import opened ElementProps

  datatype Direction = In | Out | InOut

  /**
   * The raw `rest` setting: `true`, a number, or any other value. The number
   * 0 is falsy, so `Capped(0)` behaves like `NoRest`.
   */
  datatype Rest = NoRest | Unlimited | Capped(limit: int) | OtherRest

  /** `rest` is truthy. */
  predicate IsRest(r: Rest)
  {
    r.Unlimited? || (r.Capped? && r.limit != 0) || r.OtherRest?
  }

  /** Number.MAX_SAFE_INTEGER. */
  const MaxSafeInteger: int := 9007199254740991

  /** getMaxRestCount: how many concrete ports a template may have. */
  function MaxRestCount(r: Rest): (n: int)
    ensures r.Unlimited? ==> n == MaxSafeInteger
    ensures r.Capped? ==> n == r.limit
    ensures !r.Unlimited? && !r.Capped? ==> n == 0
    ensures !IsRest(r) ==> n == 0
  {
    match r
    case Unlimited => MaxSafeInteger
    case Capped(k) => k
    case _ => 0
  }

  /** A port as written in a type's `ports` object. */
  datatype RawPort = RawPort(
    name: Option<string>, side: Option<string>, direction: Option<string>,
    space: Option<real>, spaceBegin: Option<real>, spaceEnd: Option<real>,
    maxLinkCount: Option<int>, free: Option<bool>, rest: Rest,
    restMinIndex: Option<int>, restInitialCount: Option<int>)

  /** A port entry: a number (its space), a string (its name) or an object. */
  datatype PortSpec = SpaceOnly(space: real) | NameOnly(name: string) | Object(raw: RawPort)

  datatype Port = Port(
    side: Side, name: Option<string>, empty: bool, direction: Direction,
    space: real, spaceBegin: real, spaceEnd: real, index: Option<nat>,
    rest: Rest, maxLinkCount: int, free: bool,
    restMinIndex: int, restInitialCount: int,
    restInstance: bool)

  const NoRaw := RawPort(None, None, None, None, None, None, None, None, NoRest, None, None)

  function RawOf(spec: PortSpec): RawPort
  {
    match spec
    case SpaceOnly(s) => NoRaw.(space := Some(s))
    case NameOnly(n) => NoRaw.(name := Some(n))
    case Object(raw) => raw
  }

  function SideName(s: Side): (r: string)
    ensures SideNamed(r) == Some(s)
  {
    match s
    case Top => "top"
    case Right => "right"
    case Bottom => "bottom"
    case Left => "left"
  }

  function DirectionName(d: Direction): string
  {
    match d
    case In => "in"
    case Out => "out"
    case InOut => "in-out"
  }

  function Truthy(s: Option<string>): bool
  {
    s.Some? && s.value != []
  }

  /** `value === undefined ? otherwise : value`. */
  function OrElse<T>(value: Option<T>, otherwise: T): T
  {
    if value.Some? then value.value else otherwise
  }

  /** A port as the constructor leaves it. */
  predicate WellFormed(p: Port)
  {
    && p.maxLinkCount >= 1
    && (p.empty <==> p.name.None? || p.name.value == [])
    && (IsRest(p.rest) ==> p.maxLinkCount == 1 && !p.free)
  }

  /** The side: the first non-empty of the two names, if it names a side; else right. */
  function ResolveSide(arg: Option<string>, raw: Option<string>): (s: Side)
    ensures Truthy(arg) && SideNamed(arg.value).Some? ==> s == SideNamed(arg.value).value
    ensures !Truthy(arg) && Truthy(raw) && SideNamed(raw.value).Some? ==> s == SideNamed(raw.value).value
    ensures s != Right ==>
              || (Truthy(arg) && SideNamed(arg.value) == Some(s))
              || (!Truthy(arg) && Truthy(raw) && SideNamed(raw.value) == Some(s))
  {
    var name := if Truthy(arg) then arg else raw;
    if name.Some? && SideNamed(name.value).Some? then SideNamed(name.value).value else Right
  }

  /** The direction: 'out', 'in', and everything else 'in-out'. */
  function ResolveDirection(raw: Option<string>): (d: Direction)
    ensures d == Out <==> raw == Some("out")
    ensures d == In <==> raw == Some("in")
  {
    if raw == Some("out") then Out else if raw == Some("in") then In else InOut
  }

  /**
   * The port constructor: `side` is the side argument (it wins over the raw
   * side when non-empty) and `index` the position in the side's list.
   */
  function NewPort(spec: PortSpec, side: Option<string>, index: Option<nat>): (p: Port)
    ensures WellFormed(p)
    ensures p.name == RawOf(spec).name && p.rest == RawOf(spec).rest
    ensures p.index == index && !p.restInstance
    ensures p.side == ResolveSide(side, RawOf(spec).side)
    ensures p.direction == ResolveDirection(RawOf(spec).direction)
    ensures !IsRest(p.rest) ==> (p.free <==> RawOf(spec).free != Some(false))
    ensures !IsRest(p.rest) && RawOf(spec).maxLinkCount.Some? && RawOf(spec).maxLinkCount.value >= 1 ==>
              p.maxLinkCount == RawOf(spec).maxLinkCount.value
    ensures !IsRest(p.rest) && (RawOf(spec).maxLinkCount.None? || RawOf(spec).maxLinkCount.value < 1) ==>
              p.maxLinkCount == 1
    ensures p.space == OrElse(RawOf(spec).space, 1.0)
    ensures p.restMinIndex == OrElse(RawOf(spec).restMinIndex, 1)
    ensures p.restInitialCount == OrElse(RawOf(spec).restInitialCount, 1)
  {
    var raw := RawOf(spec);
    var maxLinks :=
      if IsRest(raw.rest) then 1
      else if raw.maxLinkCount.Some? && raw.maxLinkCount.value > 1 then raw.maxLinkCount.value
      else 1;
    Port(ResolveSide(side, raw.side), raw.name, raw.name.None? || raw.name.value == [],
         ResolveDirection(raw.direction),
         OrElse(raw.space, 1.0), OrElse(raw.spaceBegin, 0.0), OrElse(raw.spaceEnd, 0.0),
         index, raw.rest, maxLinks,
         !IsRest(raw.rest) && raw.free != Some(false),
         OrElse(raw.restMinIndex, 1), OrElse(raw.restInitialCount, 1),
         false)
  }

  /** exportPort: the public fields of a port as raw data. */
  function Export(p: Port): RawPort
  {
    RawPort(p.name, Some(SideName(p.side)), Some(DirectionName(p.direction)),
            Some(p.space), Some(p.spaceBegin), Some(p.spaceEnd),
            Some(p.maxLinkCount), Some(p.free), p.rest,
            Some(p.restMinIndex), Some(p.restInitialCount))
  }

  /**
   * The concrete port `portName` of a template: the template's exported
   * data renamed, with `rest = false` and `maxLinkCount = 1`, passed through
   * the constructor without a side or an index.
   */
  function Instance(t: Port, portName: string): Port
  {
    var raw := Export(t).(name := Some(portName), rest := NoRest, maxLinkCount := Some(1));
    NewPort(Object(raw), None, None).(restInstance := true)
  }

  /**
   * A concrete port differs from its template only in its name, its rest
   * setting, its index and its link capacity; it is never free.
   */
  lemma InstanceShape(t: Port, portName: string)
    requires IsRest(t.rest) && WellFormed(t)
    ensures Instance(t, portName)
         == t.(name := Some(portName), empty := portName == [], rest := NoRest, index := None,
               maxLinkCount := 1, free := false, restInstance := true)
  {
  }

  // ---------------------------------------------------------------------
  // Rest-port names
  // ---------------------------------------------------------------------

  /** Number.parseInt of a run of decimal digits. */
  function ParseDigits(s: string): (n: nat)
    requires AllDigits(s)
  {
    if s == [] then 0
    else ParseDigits(s[..|s| - 1]) * 10 + ((s[|s| - 1] as int) - ('0' as int))
  }

  lemma {:induction false} ParseDecimal(n: nat)
    ensures ParseDigits(Decimal(n)) == n
  {
    if n >= 10 {
      var d := Decimal(n);
      assert d[..|d| - 1] == Decimal(n / 10);
      ParseDecimal(n / 10);
    }
  }

  /** Position of the `*` in a template name, or -1. */
  function Star(name: string): int
  {
    IndexOf(name, '*')
  }

  /** getRestPortNameByIndex: the first `*` replaced by `index + restMinIndex`. */
  function RestPortName(t: Port, index: int): (r: string)
    requires t.name.Some?
  {
    var nm := t.name.value;
    var k := Star(nm);
    if k < 0 then nm else nm[..k] + IntString(index + t.restMinIndex) + nm[k + 1..]
  }

  /**
   * isMatchRestName: the template is a rest port and `s` is its name with
   * the `*` standing for a non-empty run of decimal digits (or, without a
   * `*`, `s` is the name itself).
   */
  predicate MatchRest(t: Port, s: string)
  {
    && IsRest(t.rest) && t.name.Some?
    && var nm := t.name.value;
       var k := Star(nm);
       if k < 0 then s == nm
       else
         var pre := nm[..k];
         var suf := nm[k + 1..];
         && |s| > |pre| + |suf|
         && s[..|pre|] == pre
         && s[|s| - |suf|..] == suf
         && AllDigits(s[|pre|..|s| - |suf|])
  }

  /**
   * getRestPortIndex: the digits the `*` stands for, less `restMinIndex`,
   * never below 0. A template without a `*` has no index.
   */
  function RestPortIndex(t: Port, s: string): (r: Option<nat>)
    requires MatchRest(t, s)
    ensures r.Some? <==> Star(t.name.value) >= 0
  {
    var nm := t.name.value;
    var k := Star(nm);
    if k < 0 then None
    else
      var n := ParseDigits(s[k..|s| - (|nm| - k - 1)]) - t.restMinIndex;
      Some(if n < 0 then 0 else n)
  }

  /**
   * Index and name correspond one to one: the name generated for index i
   * matches the template exactly when `i + restMinIndex` is not negative,
   * and then reads back as i.
   */
  lemma RestPortNameIndex(t: Port, i: nat)
    requires IsRest(t.rest) && t.name.Some? && Star(t.name.value) >= 0
    ensures MatchRest(t, RestPortName(t, i)) <==> i + t.restMinIndex >= 0
    ensures i + t.restMinIndex >= 0 ==> RestPortIndex(t, RestPortName(t, i)) == Some(i)
  {
    if i + t.restMinIndex >= 0 {
      RestNameMatches(t, i);
    } else {
      RestNameNegative(t, i);
    }
  }

  lemma RestNameMatches(t: Port, i: nat)
    requires IsRest(t.rest) && t.name.Some? && Star(t.name.value) >= 0 && i + t.restMinIndex >= 0
    ensures MatchRest(t, RestPortName(t, i)) && RestPortIndex(t, RestPortName(t, i)) == Some(i)
  {
    var n: nat := i + t.restMinIndex;
    var mid := Decimal(n);
    RestNameShape(t, i);
    ParseDecimal(n);
    RestIndexRead(t, RestPortName(t, i), mid, i);
  }

  /** A generated name matches its template, with the index's digits where the `*` was. */
  lemma RestNameShape(t: Port, i: nat)
    requires IsRest(t.rest) && t.name.Some? && Star(t.name.value) >= 0 && i + t.restMinIndex >= 0
    ensures var nm := t.name.value; var k := Star(nm); var s := RestPortName(t, i);
      && MatchRest(t, s) && s[k..|s| - (|nm| - k - 1)] == Decimal(i + t.restMinIndex)
  {
    var nm := t.name.value;
    var k := Star(nm);
    var mid := Decimal(i + t.restMinIndex);
    var s := RestPortName(t, i);
    assert s == nm[..k] + mid + nm[k + 1..];
    Replaced(nm, k, mid);
  }

  /** The index a matching name reads back as, from the digits where the `*` was. */
  lemma RestIndexRead(t: Port, s: string, mid: string, n: nat)
    requires MatchRest(t, s) && Star(t.name.value) >= 0
    requires var nm := t.name.value; var k := Star(nm);
      s[k..|s| - (|nm| - k - 1)] == mid
    requires AllDigits(mid) && ParseDigits(mid) == n + t.restMinIndex
    ensures RestPortIndex(t, s) == Some(n)
  {
  }

  lemma RestNameNegative(t: Port, i: nat)
    requires IsRest(t.rest) && t.name.Some? && Star(t.name.value) >= 0 && i + t.restMinIndex < 0
    ensures !MatchRest(t, RestPortName(t, i))
  {
    var nm := t.name.value;
    var mid := IntString(i + t.restMinIndex);
    Replaced(nm, Star(nm), mid);
    assert mid[0] == '-' && !IsDigit(mid[0]);
  }

  /** The name with its `k`-th character replaced by `mid`, read back by position. */
  lemma Replaced(nm: string, k: int, mid: string)
    requires 0 <= k < |nm|
    ensures var s := nm[..k] + mid + nm[k + 1..];
      && |s| == |nm| - 1 + |mid|
      && s[..k] == nm[..k] && s[|s| - (|nm| - k - 1)..] == nm[k + 1..]
      && s[k..|s| - (|nm| - k - 1)] == mid
  {
  }

  // ---------------------------------------------------------------------
  // The cache of concrete rest ports
  // ---------------------------------------------------------------------

  /** A rest template together with its `_restPorts` cache. */
  class RestTemplate {
    const port: Port
    var cache: map<string, Port>

    /** Every cached port is the concrete port of its (matching) name. */
    ghost predicate Valid()
      reads this
    {
      && WellFormed(port)
      && forall n :: n in cache ==> MatchRest(port, n) && cache[n] == Instance(port, n)
    }

    constructor (p: Port)
      requires WellFormed(p)
      ensures port == p && cache == map[] && Valid()
    {
      port := p;
      cache := map[];
    }

    /**
     * getRestPortByName: for a matching name, the cached concrete port,
     * materialised and cached on first use; otherwise none.
     */
    method GetRestPortByName(portName: string) returns (r: Option<Port>)
      requires Valid()
      modifies this
      ensures Valid()
      ensures r.Some? <==> MatchRest(port, portName)
      ensures r.Some? ==> r.value == Instance(port, portName) && cache == old(cache)[portName := r.value]
      ensures r.None? ==> cache == old(cache)
      ensures portName in old(cache) ==> cache == old(cache) && r == Some(old(cache)[portName])
    {
      if MatchRest(port, portName) {
        if portName in cache {
          r := Some(cache[portName]);
        } else {
          var p := Instance(port, portName);
          cache := cache[portName := p];
          r := Some(p);
        }
      } else {
        r := None;
      }
    }

    /** getRestPortAt: the concrete port for an index. */
    method GetRestPortAt(index: nat) returns (r: Option<Port>)
      requires Valid() && port.name.Some?
      modifies this
      ensures Valid()
      ensures IsRest(port.rest) && Star(port.name.value) >= 0 && index + port.restMinIndex >= 0
              ==> r == Some(Instance(port, RestPortName(port, index)))
      ensures IsRest(port.rest) && r.Some? ==> cache == old(cache)[RestPortName(port, index) := r.value]
      ensures r.None? ==> cache == old(cache)
      ensures !IsRest(port.rest) ==> r.None?
    {
      if IsRest(port.rest) {
        var name := RestPortName(port, index);
        if Star(port.name.value) >= 0 && index + port.restMinIndex >= 0 {
          RestPortNameIndex(port, index);
          assert MatchRest(port, name);
        }
        r := GetRestPortByName(name);
      } else {
        r := None;
      }
    }
  }

  /** Asking twice for one name yields the same port, with one entry cached. */
  method RestPortCached(t: RestTemplate, portName: string) returns (a: Option<Port>, b: Option<Port>)
    requires t.Valid()
    modifies t
    ensures t.Valid()
    ensures a == b
    ensures a.Some? ==> a.value.rest == NoRest && a.value.maxLinkCount == 1 && !a.value.free
    ensures a.Some? ==> t.cache == old(t.cache)[portName := a.value]
  {
    a := t.GetRestPortByName(portName);
    b := t.GetRestPortByName(portName);
  }

  // ---------------------------------------------------------------------
  // createPortsMap
  // ---------------------------------------------------------------------

  /** One side of a type's `ports` object: absent, a count, one port or a list. */
  datatype SideSpec = Absent | Count(n: int) | Single(spec: PortSpec) | Many(specs: seq<PortSpec>)

  /** The names `side1` .. `side<n>` that a count on a side stands for; none when n < 1. */
  function CountNames(side: Side, n: int): (r: seq<PortSpec>)
    ensures |r| == (if n < 0 then 0 else n)
    ensures forall i :: 0 <= i < |r| ==> r[i] == NameOnly(SideName(side) + Decimal(i + 1))
  {
    var k := if n < 0 then 0 else n;
    seq(k, i requires 0 <= i < k => NameOnly(SideName(side) + Decimal(i + 1)))
  }

  /**
   * The port entries of one side. A number is a count, even a fractional
   * one (`i <= portsData` stops at its floor); an empty name is falsy and
   * gives no entries; any other single entry is wrapped in a list.
   */
  function SideSpecs(side: Side, spec: SideSpec): (r: seq<PortSpec>)
    ensures spec.Count? ==> r == CountNames(side, spec.n)
    ensures spec.Single? && spec.spec.SpaceOnly? ==> r == CountNames(side, spec.spec.space.Floor)
    ensures spec == Single(NameOnly("")) ==> r == []
    ensures spec.Single? && !spec.spec.SpaceOnly? && spec.spec != NameOnly("") ==> r == [spec.spec]
    ensures spec.Many? ==> r == spec.specs
    ensures spec.Absent? ==> r == []
  {
    match spec
    case Absent => []
    case Count(n) => CountNames(side, n)
    case Single(p) =>
      if p.SpaceOnly? then CountNames(side, p.space.Floor)
      else if p == NameOnly("") then []
      else [p]
    case Many(ps) => ps
  }

  /** A side given only as "" has no ports, so a `ports` object with nothing else gives no map. */
  lemma EmptyNameNoPorts(side: Side)
    ensures SideLists(map[side := Single(NameOnly(""))]) == map[]
    ensures CreatePortsMap(Some(map[side := Single(NameOnly(""))])).None?
  {
    var m := map[side := Single(NameOnly(""))];
    forall s ensures SpecsOf(m, s) == [] {
    }
  }

  /** The ports built for one side, each knowing its side and its index. */
  function SidePorts(side: Side, specs: seq<PortSpec>): (r: seq<Port>)
    ensures |r| == |specs|
    ensures forall i :: 0 <= i < |r| ==> r[i].side == side && r[i].index == Some(i) && WellFormed(r[i])
  {
    seq(|specs|, i requires 0 <= i < |specs| => NewPort(specs[i], Some(SideName(side)), Some(i)))
  }

  datatype PortsMap = PortsMap(
    sides: map<Side, seq<Port>>,
    all: map<string, Port>,
    list: seq<Port>, free: seq<Port>, rest: seq<Port>)

  const SideOrder: seq<Side> := [Top, Right, Bottom, Left]

  predicate Named(p: Port)
  {
    !p.empty
  }

  predicate IsFree(p: Port)
  {
    p.free
  }

  predicate IsRestTemplate(p: Port)
  {
    IsRest(p.rest)
  }

  /** `$all`: each named port under its name; of two ports with one name the later wins. */
  function IndexByName(ps: seq<Port>): (m: map<string, Port>)
    requires forall i :: 0 <= i < |ps| ==> ps[i].name.Some?
    ensures forall i :: 0 <= i < |ps| ==> ps[i].name.value in m
    ensures forall n :: n in m ==> m[n].name == Some(n)
  {
    if ps == [] then map[]
    else
      var last := ps[|ps| - 1];
      var m0 := IndexByName(ps[..|ps| - 1]);
      assert forall i :: 0 <= i < |ps| - 1 ==> ps[..|ps| - 1][i] == ps[i];
      m0[last.name.value := last]
  }

  /** Every indexed port is one of the ports. */
  lemma {:induction false} IndexByNameMember(ps: seq<Port>, n: string)
    requires forall k :: 0 <= k < |ps| ==> ps[k].name.Some?
    requires n in IndexByName(ps)
    ensures IndexByName(ps)[n] in ps
  {
    var init := ps[..|ps| - 1];
    assert forall k :: 0 <= k < |init| ==> init[k] == ps[k];
    if n != ps[|ps| - 1].name.value {
      IndexByNameMember(init, n);
    }
  }

  /** The port indexed under a name is the last one carrying it. */
  lemma {:induction false} IndexByNameLast(ps: seq<Port>, i: nat)
    requires forall k :: 0 <= k < |ps| ==> ps[k].name.Some?
    requires i < |ps| && forall j :: i < j < |ps| ==> ps[j].name != ps[i].name
    ensures IndexByName(ps)[ps[i].name.value] == ps[i]
  {
    if i < |ps| - 1 {
      var init := ps[..|ps| - 1];
      assert forall k :: 0 <= k < |init| ==> init[k] == ps[k];
      IndexByNameLast(init, i);
    }
  }

  /** The entries given for one side of the `ports` object. */
  function SpecsOf(m: map<Side, SideSpec>, s: Side): seq<PortSpec>
  {
    if s in m then SideSpecs(s, m[s]) else []
  }

  /** The per-side lists: only sides with at least one entry. */
  function SideLists(m: map<Side, SideSpec>): (r: map<Side, seq<Port>>)
    ensures forall s :: s in r <==> SpecsOf(m, s) != []
    ensures forall s :: s in r ==> r[s] == SidePorts(s, SpecsOf(m, s))
  {
    map s | s in m && SpecsOf(m, s) != [] :: SidePorts(s, SpecsOf(m, s))
  }

  /** The position of a side in SIDES order. */
  function SideRank(s: Side): (r: nat)
    ensures r < |SideOrder| && SideOrder[r] == s
  {
    match s
    case Top => 0
    case Right => 1
    case Bottom => 2
    case Left => 3
  }

  /** `p` comes before `q`: an earlier side in SIDES order, or the same side and a smaller index. */
  predicate Precedes(p: Port, q: Port)
  {
    || SideRank(p.side) < SideRank(q.side)
    || (p.side == q.side && p.index.Some? && q.index.Some? && p.index.value < q.index.value)
  }

  /** Every entry of `ps` comes before every later entry. */
  predicate InSideOrder(ps: seq<Port>)
  {
    forall i, j :: 0 <= i < j < |ps| ==> Precedes(ps[i], ps[j])
  }

  /** Selecting ports keeps them in side order. */
  lemma FilterSideOrder(s: seq<Port>, p: Port -> bool)
    requires InSideOrder(s)
    ensures InSideOrder(Filter(s, p))
  {
    var r := Filter(s, p);
    forall i, j | 0 <= i < j < |r| ensures Precedes(r[i], r[j]) {
      var a, b := FilterOrder(s, p, i, j);
    }
  }

  /** All ports, side after side in SIDES order. */
  function AllPorts(m: map<Side, SideSpec>): (r: seq<Port>)
    ensures forall p :: p in r <==> exists s :: s in SideLists(m) && p in SideLists(m)[s]
    ensures forall i :: 0 <= i < |r| ==> WellFormed(r[i])
    ensures InSideOrder(r)
  {
    SidesWellFormed(m);
    SidesMembers(m);
    SidesOrdered(m);
    SidesInOrder(m)
  }

  /** The four side lists, concatenated. */
  function SidesInOrder(m: map<Side, SideSpec>): seq<Port>
  {
    SidePorts(Top, SpecsOf(m, Top)) + SidePorts(Right, SpecsOf(m, Right))
    + SidePorts(Bottom, SpecsOf(m, Bottom)) + SidePorts(Left, SpecsOf(m, Left))
  }

  lemma SidesWellFormed(m: map<Side, SideSpec>)
    ensures forall i :: 0 <= i < |SidesInOrder(m)| ==> WellFormed(SidesInOrder(m)[i])
  {
    var t := SidePorts(Top, SpecsOf(m, Top));
    var rt := SidePorts(Right, SpecsOf(m, Right));
    var b := SidePorts(Bottom, SpecsOf(m, Bottom));
    var l := SidePorts(Left, SpecsOf(m, Left));
    WellFormedJoin(t, rt);
    WellFormedJoin(t + rt, b);
    WellFormedJoin(t + rt + b, l);
  }

  lemma WellFormedJoin(a: seq<Port>, b: seq<Port>)
    requires forall i :: 0 <= i < |a| ==> WellFormed(a[i])
    requires forall i :: 0 <= i < |b| ==> WellFormed(b[i])
    ensures forall i :: 0 <= i < |a + b| ==> WellFormed((a + b)[i])
  {
    forall i | 0 <= i < |a + b| ensures WellFormed((a + b)[i]) {
      if i >= |a| {
        assert (a + b)[i] == b[i - |a|];
      }
    }
  }

  lemma SidesMembers(m: map<Side, SideSpec>)
    ensures forall p :: p in SidesInOrder(m) <==> exists s :: s in SideLists(m) && p in SideLists(m)[s]
  {
    var sides := SideLists(m);
    var t := SidePorts(Top, SpecsOf(m, Top));
    var rt := SidePorts(Right, SpecsOf(m, Right));
    var b := SidePorts(Bottom, SpecsOf(m, Bottom));
    var l := SidePorts(Left, SpecsOf(m, Left));
    var r := SidesInOrder(m);
    assert r == t + rt + b + l;
    forall p | p in r ensures exists s :: s in sides && p in sides[s] {
      if p in t { assert Top in sides; }
      else if p in rt { assert Right in sides; }
      else if p in b { assert Bottom in sides; }
      else { assert Left in sides; }
    }
    forall s, p | s in sides && p in sides[s] ensures p in r {
      if s == Top { assert sides[s] == t; }
      else if s == Right { assert sides[s] == rt; }
      else if s == Bottom { assert sides[s] == b; }
      else { assert sides[s] == l; }
    }
  }

  /** The four side lists, concatenated, run top, right, bottom, left, and by index within a side. */
  lemma SidesOrdered(m: map<Side, SideSpec>)
    ensures InSideOrder(SidesInOrder(m))
  {
    FourSidesOrdered(SidePorts(Top, SpecsOf(m, Top)), SidePorts(Right, SpecsOf(m, Right)),
      SidePorts(Bottom, SpecsOf(m, Bottom)), SidePorts(Left, SpecsOf(m, Left)));
  }

  /** Port lists of the four sides, each in index order, joined in SIDES order. */
  lemma FourSidesOrdered(t: seq<Port>, rt: seq<Port>, b: seq<Port>, l: seq<Port>)
    requires forall i :: 0 <= i < |t| ==> t[i].side == Top && t[i].index == Some(i)
    requires forall i :: 0 <= i < |rt| ==> rt[i].side == Right && rt[i].index == Some(i)
    requires forall i :: 0 <= i < |b| ==> b[i].side == Bottom && b[i].index == Some(i)
    requires forall i :: 0 <= i < |l| ==> l[i].side == Left && l[i].index == Some(i)
    ensures InSideOrder(t + rt + b + l)
  {
    var none: seq<Port> := [];
    JoinSideOrder(none, t, Top);
    assert none + t == t;
    JoinSideOrder(t, rt, Right);
    var upper := t + rt;
    JoinSideOrder(upper, b, Bottom);
    JoinSideOrder(upper + b, l, Left);
  }

  /**
   * A list in side order whose sides come before `side`, followed by the
   * ports of `side` in index order, is in side order.
   */
  lemma JoinSideOrder(a: seq<Port>, b: seq<Port>, side: Side)
    requires InSideOrder(a) && forall i :: 0 <= i < |a| ==> SideRank(a[i].side) < SideRank(side)
    requires forall i :: 0 <= i < |b| ==> b[i].side == side && b[i].index == Some(i)
    ensures InSideOrder(a + b) && forall i :: 0 <= i < |a + b| ==> SideRank((a + b)[i].side) < SideRank(side) + 1
  {
    var c := a + b;
    forall i, j | 0 <= i < j < |c| ensures Precedes(c[i], c[j]) {
      if j >= |a| {
        assert c[j] == b[j - |a|];
        if i >= |a| {
          assert c[i] == b[i - |a|];
        }
      }
    }
    forall i | 0 <= i < |c| ensures SideRank(c[i].side) < SideRank(side) + 1 {
      if i >= |a| {
        assert c[i] == b[i - |a|];
      }
    }
  }

  /** `$list`: the named ports, side after side. */
  function NamedPorts(m: map<Side, SideSpec>): (r: seq<Port>)
    ensures forall p :: p in r <==> p in AllPorts(m) && Named(p)
    ensures forall i :: 0 <= i < |r| ==> r[i].name.Some? && WellFormed(r[i])
    ensures InSideOrder(r)
  {
    var r := Filter(AllPorts(m), Named);
    FilterSideOrder(AllPorts(m), Named);
    assert forall p :: p in r <==> p in AllPorts(m) && Named(p) by {
      forall p ensures p in r <==> p in AllPorts(m) && Named(p) {
        FilterMember(AllPorts(m), Named, p);
      }
    }
    r
  }

  /** `$free` and `$rest`: the listed ports that are free, and the rest templates. */
  function FreePorts(list: seq<Port>): (r: seq<Port>)
    ensures forall p :: p in r <==> p in list && p.free
    ensures InSideOrder(list) ==> InSideOrder(r)
  {
    var r := Filter(list, IsFree);
    assert InSideOrder(list) ==> InSideOrder(r) by {
      if InSideOrder(list) {
        FilterSideOrder(list, IsFree);
      }
    }
    assert forall p :: p in r <==> p in list && p.free by {
      forall p ensures p in r <==> p in list && p.free {
        FilterMember(list, IsFree, p);
      }
    }
    r
  }

  function RestTemplates(list: seq<Port>): (r: seq<Port>)
    ensures forall p :: p in r <==> p in list && IsRest(p.rest)
    ensures InSideOrder(list) ==> InSideOrder(r)
  {
    var r := Filter(list, IsRestTemplate);
    assert InSideOrder(list) ==> InSideOrder(r) by {
      if InSideOrder(list) {
        FilterSideOrder(list, IsRestTemplate);
      }
    }
    assert forall p :: p in r <==> p in list && IsRest(p.rest) by {
      forall p ensures p in r <==> p in list && IsRest(p.rest) {
        FilterMember(list, IsRestTemplate, p);
      }
    }
    r
  }

  /** `$all`, over the listed ports. */
  function AllByName(list: seq<Port>): (r: map<string, Port>)
    requires forall i :: 0 <= i < |list| ==> list[i].name.Some?
    ensures forall p :: p in list ==> p.name.Some? && p.name.value in r
    ensures forall n :: n in r ==> r[n].name == Some(n)
  {
    var r := IndexByName(list);
    assert forall p :: p in list ==> p.name.Some? && p.name.value in r by {
      forall p | p in list ensures p.name.Some? && p.name.value in r {
        var i :| 0 <= i < |list| && list[i] == p;
      }
    }
    r
  }

  /**
   * createPortsMap: the ports of every side in SIDES order. A side with no
   * entries is left out, and a type with no port at all has no map.
   */
  function CreatePortsMap(init: Option<map<Side, SideSpec>>): (r: Option<PortsMap>)
    ensures r.None? <==> init.None? || SideLists(init.value) == map[]
    ensures r.Some? ==> r.value.sides == SideLists(init.value)
    ensures r.Some? ==> forall p :: p in r.value.list <==> p in AllPorts(init.value) && Named(p)
    ensures r.Some? ==> forall p :: p in r.value.free <==> p in r.value.list && p.free
    ensures r.Some? ==> forall p :: p in r.value.rest <==> p in r.value.list && IsRest(p.rest)
    ensures r.Some? ==> forall n :: n in r.value.all ==> r.value.all[n].name == Some(n)
    ensures r.Some? ==> forall p :: p in r.value.list ==> p.name.Some? && p.name.value in r.value.all
    ensures r.Some? ==> InSideOrder(r.value.list) && InSideOrder(r.value.free) && InSideOrder(r.value.rest)
  {
    if init.None? || SideLists(init.value) == map[] then None
    else
      var list := NamedPorts(init.value);
      Some(PortsMap(SideLists(init.value), AllByName(list), list, FreePorts(list), RestTemplates(list)))
  }

  /** A free port is never a rest template, and every port lives on its own side's list. */
  lemma PortsMapShape(init: Option<map<Side, SideSpec>>, p: Port)
    requires CreatePortsMap(init).Some? && p in CreatePortsMap(init).value.list
    ensures p in CreatePortsMap(init).value.free ==> p !in CreatePortsMap(init).value.rest
    ensures p.side in CreatePortsMap(init).value.sides && p in CreatePortsMap(init).value.sides[p.side]
    ensures WellFormed(p) && !p.empty
  {
  }

  // ---------------------------------------------------------------------
  // getPortByName
  // ---------------------------------------------------------------------

  /** The first rest template in `rest` that matches `name`, as an index. */
  function FirstMatch(rest: seq<Port>, name: string): (r: int)
    ensures -1 <= r < |rest|
    ensures r >= 0 ==> MatchRest(rest[r], name) && forall k :: 0 <= k < r ==> !MatchRest(rest[k], name)
    ensures r == -1 <==> forall k :: 0 <= k < |rest| ==> !MatchRest(rest[k], name)
  {
    FirstIndex(rest, (t: Port) => MatchRest(t, name))
  }

  /**
   * With the templates in side order, the one a lookup settles on comes
   * before every other template that matches the name.
   */
  lemma FirstMatchEarliest(rest: seq<Port>, name: string)
    requires InSideOrder(rest)
    ensures var k := FirstMatch(rest, name);
      k >= 0 ==> forall j :: 0 <= j < |rest| && j != k && MatchRest(rest[j], name) ==> Precedes(rest[k], rest[j])
  {
  }

  /**
   * FlowChartElementType.getPortByName: the port of that exact name first,
   * then the first rest template whose pattern matches, returned as is or,
   * with `tryRest`, as its concrete port of that name.
   */
  function GetPortByName(ports: Option<PortsMap>, name: string, tryRest: bool): (r: Option<Port>)
    ensures ports.None? ==> r.None?
    ensures ports.Some? && name in ports.value.all ==> r == Some(ports.value.all[name])
    ensures ports.Some? && name !in ports.value.all ==>
              (r.Some? <==> exists k :: 0 <= k < |ports.value.rest| && MatchRest(ports.value.rest[k], name))
    ensures ports.Some? && name !in ports.value.all && r.Some? ==>
              var t := ports.value.rest[FirstMatch(ports.value.rest, name)];
              r.value == (if tryRest then Instance(t, name) else t)
  {
    if ports.None? then None
    else if name in ports.value.all then Some(ports.value.all[name])
    else
      var k := FirstMatch(ports.value.rest, name);
      if k < 0 then None
      else
        var t := ports.value.rest[k];
        Some(if tryRest then Instance(t, name) else t)
  }

  /**
   * Every listed port is found under its own name; a concrete rest port
   * name that no listed port carries resolves to the concrete port of the
   * first template that generates it.
   */
  lemma LookupListedPort(init: Option<map<Side, SideSpec>>, p: Port, tryRest: bool)
    requires CreatePortsMap(init).Some? && p in CreatePortsMap(init).value.list
    ensures GetPortByName(CreatePortsMap(init), p.name.value, tryRest).Some?
    ensures GetPortByName(CreatePortsMap(init), p.name.value, tryRest).value.name == p.name
  {
  }

  lemma LookupRestInstance(ports: PortsMap, k: nat, i: nat)
    requires k < |ports.rest|
    requires var t := ports.rest[k];
             IsRest(t.rest) && t.name.Some? && Star(t.name.value) >= 0 && i + t.restMinIndex >= 0
    requires RestPortName(ports.rest[k], i) !in ports.all
    requires forall j :: 0 <= j < k ==> !MatchRest(ports.rest[j], RestPortName(ports.rest[k], i))
    ensures GetPortByName(Some(ports), RestPortName(ports.rest[k], i), true)
         == Some(Instance(ports.rest[k], RestPortName(ports.rest[k], i)))
  {
    var t := ports.rest[k];
    var n := RestPortName(t, i);
    RestPortNameIndex(t, i);
    assert MatchRest(t, n);
    var f := FirstMatch(ports.rest, n);
    assert f == k;
  }
}
