/**
 * The chart as a graph store (`FlowChart` in src/js/flowchart.js): the
 * elements by id, the node and relation lists rebuilt from them, and the
 * operations that rebuild, expand, export and delete.
 */
module Chart {
  import opened Base
  import opened ElementProps
  import opened Ports
  import opened Bounds
  import opened Elements

  // ---------------------------------------------------------------------
  // What a rebuild computes, as functions of the element map
  // ---------------------------------------------------------------------

  /** getElement: an empty or missing id finds nothing. */
  function Lookup(m: map<string, Element>, id: Option<string>): (r: Option<Element>)
    ensures r.Some? <==> id.Some? && id.value != "" && id.value in m
    ensures r.Some? ==> r.value == m[id.value]
  {
    if id.Some? && id.value != "" && id.value in m then Some(m[id.value]) else None
  }

  /** A relation is drawn iff both of its end nodes exist. */
  predicate Visible(m: map<string, Element>, r: Element)
  {
    Lookup(m, r.from).Some? && Lookup(m, r.to).Some?
  }

  /** Every element is stored under its own id. */
  ghost predicate IdKeyed(m: map<string, Element>)
  {
    forall id :: id in m ==> m[id].id == id
  }

  /**
   * Relations name only nodes as the ends getElement finds (the rebuild
   * dereferences them as nodes); an end "" is never found.
   */
  predicate EndsAreNodes(m: map<string, Element>)
  {
    forall id, k :: id in m && k in m && k != "" && !m[id].isNode && (m[id].from == Some(k) || m[id].to == Some(k)) ==>
      m[k].isNode
  }

  /** Writing an element under its id keeps the table and its iteration order in step. */
  lemma PutTable(m: map<string, Element>, ids: seq<string>, e: Element)
    requires NoDuplicates(ids) && IdKeyed(m)
    requires forall i :: 0 <= i < |ids| ==> ids[i] in m
    requires forall id :: id in m ==> id in ids
    ensures var m', ids' := m[e.id := e], if e.id in m then ids else AddKey(ids, e.id);
      && NoDuplicates(ids') && IdKeyed(m')
      && (forall i :: 0 <= i < |ids'| ==> ids'[i] in m')
      && (forall id :: id in m' ==> id in ids')
      && (InKeyOrder(ids) ==> InKeyOrder(ids'))
  {
    AddKeyOrdered(ids, e.id);
    if e.id !in m {
      var ids', m' := AddKey(ids, e.id), m[e.id := e];
      AddKeyMembers(ids, e.id);
      forall i | 0 <= i < |ids'| ensures ids'[i] in m' {
        assert ids'[i] in ids' && (ids'[i] == e.id || ids'[i] in ids);
      }
      forall id | id in m' ensures id in ids' {
        assert id == e.id || id in ids;
      }
    }
  }

  lemma ValueKey(m: map<string, Element>, e: Element)
    requires IdKeyed(m) && e in m.Values
    ensures e.id in m && m[e.id] == e
  {
    var k :| k in m && m[k] == e;
  }

  /**
   * The elements in the order `for (id in elements)` visits them, which
   * `ids` records.
   */
  function Listed(m: map<string, Element>, ids: seq<string>): (r: seq<Element>)
    requires forall i :: 0 <= i < |ids| ==> ids[i] in m
    ensures |r| == |ids| && forall i :: 0 <= i < |ids| ==> r[i] == m[ids[i]]
  {
    seq(|ids|, i requires 0 <= i < |ids| => m[ids[i]])
  }

  function NodesOf(s: seq<Element>): seq<Element>
  {
    Filter(s, (e: Element) => e.isNode)
  }

  function RelationsOf(s: seq<Element>): seq<Element>
  {
    Filter(s, (e: Element) => !e.isNode)
  }

  /** `FlowChartElement.sort`: stable by `order`. */
  function ByOrder(s: seq<Element>): seq<Element>
  {
    SortBy(s, (e: Element) => e.order)
  }

  /** The drawn relations of `rl` that leave the node `id`, in order. */
  function RelsFrom(m: map<string, Element>, rl: seq<Element>, id: string): seq<Element>
  {
    Filter(rl, (r: Element) => Visible(m, r) && r.from == Some(id))
  }

  /** The drawn relations of `rl` that arrive at the node `id`, in order. */
  function RelsTo(m: map<string, Element>, rl: seq<Element>, id: string): seq<Element>
  {
    Filter(rl, (r: Element) => Visible(m, r) && r.to == Some(id))
  }

  /** The nodes the relations `rs` arrive at. */
  function Targets(m: map<string, Element>, rs: seq<Element>): (r: seq<Element>)
    requires forall i :: 0 <= i < |rs| ==> Lookup(m, rs[i].to).Some?
    ensures |r| == |rs| && forall i :: 0 <= i < |rs| ==> r[i] == Lookup(m, rs[i].to).value
  {
    if rs == [] then [] else Targets(m, rs[..|rs| - 1]) + [Lookup(m, rs[|rs| - 1].to).value]
  }

  /** The nodes the relations `rs` leave from. */
  function Sources(m: map<string, Element>, rs: seq<Element>): (r: seq<Element>)
    requires forall i :: 0 <= i < |rs| ==> Lookup(m, rs[i].from).Some?
    ensures |r| == |rs| && forall i :: 0 <= i < |rs| ==> r[i] == Lookup(m, rs[i].from).value
  {
    if rs == [] then [] else Sources(m, rs[..|rs| - 1]) + [Lookup(m, rs[|rs| - 1].from).value]
  }

  /** A drawn relation of `rl` is among the relations leaving its start and arriving at its end. */
  lemma RelsMember(m: map<string, Element>, rl: seq<Element>, r: Element)
    requires r in rl && Visible(m, r)
    ensures r in RelsFrom(m, rl, r.from.value) && r in RelsTo(m, rl, r.to.value)
  {
    FilterMember(rl, (x: Element) => Visible(m, x) && x.from == Some(r.from.value), r);
    FilterMember(rl, (x: Element) => Visible(m, x) && x.to == Some(r.to.value), r);
  }

  lemma RelsFromVisible(m: map<string, Element>, rl: seq<Element>, id: string)
    ensures forall i :: 0 <= i < |RelsFrom(m, rl, id)| ==> Visible(m, RelsFrom(m, rl, id)[i])
    ensures forall i :: 0 <= i < |RelsTo(m, rl, id)| ==> Visible(m, RelsTo(m, rl, id)[i])
  {
  }

  /** A node as initBeforeRender leaves it: no links. */
  ghost predicate Cleared(n: Element)
    reads n`fromRels, n`toRels, n`children, n`parents, n`siblingsIndex
  {
    n.fromRels == [] && n.toRels == [] && n.children == [] && n.parents == [] && n.siblingsIndex.None?
  }

  /**
   * The lists of the node `id` after a rebuild over the relation list `rl`:
   * the drawn relations leaving it and arriving at it, in list order, and
   * the nodes at their other ends.
   */
  ghost predicate Links(m: map<string, Element>, rl: seq<Element>, id: string,
                        fromRels: seq<Element>, toRels: seq<Element>,
                        children: seq<Element>, parents: seq<Element>)
  {
    RelsFromVisible(m, rl, id);
    && fromRels == RelsFrom(m, rl, id)
    && toRels == RelsTo(m, rl, id)
    && children == Targets(m, fromRels)
    && parents == Sources(m, toRels)
  }

  /** A node's links after a rebuild over the relation list `rl`. */
  ghost predicate NodeLinked(m: map<string, Element>, rl: seq<Element>, n: Element)
    reads n
  {
    Links(m, rl, n.id, n.fromRels, n.toRels, n.children, n.parents)
  }

  /**
   * A relation's links after a rebuild, `j` being its place in `rl`: it is
   * visible iff both ends exist, and then it points at them and records
   * its place among the relations leaving its start node and among the
   * relations arriving at that same start node.
   */
  ghost predicate RelationLinked(m: map<string, Element>, rl: seq<Element>, j: int)
    requires 0 <= j < |rl|
    reads rl[j]
  {
    var r := rl[j];
    && r.visible == Visible(m, r)
    && (Visible(m, r) ==>
          && r.fromNode == m[r.from.value] && r.toNode == m[r.to.value]
          && r.fromIndex == |RelsFrom(m, rl[..j], r.from.value)|
          && r.toIndex == |RelsTo(m, rl[..j], r.from.value)|)
  }
  /** The links a relation keeps while it is not drawn. */
  datatype RelationEnds = RelationEnds(fromNode: Element?, toNode: Element?, fromIndex: int, toIndex: int)

  function EndsOf(r: Element): RelationEnds
    reads r
  {
    RelationEnds(r.fromNode, r.toNode, r.fromIndex, r.toIndex)
  }

  /** Every relation of `m` that is not drawn still has the links recorded in `snap`. */
  ghost predicate Kept(m: map<string, Element>, snap: map<Element, RelationEnds>)
    reads m.Values
  {
    forall r :: r in m.Values && !r.isNode && !Visible(m, r) ==> r in snap && EndsOf(r) == snap[r]
  }

  /** The first `j` relations of `rl` have been linked. */
  ghost predicate LinkedUpTo(m: map<string, Element>, rl: seq<Element>, j: int)
    requires 0 <= j <= |rl| && forall r :: r in rl ==> r in m.Values
    reads m.Values
  {
    && (forall n {:trigger NodeLinked(m, rl[..j], n)} :: n in m.Values && n.isNode ==> NodeLinked(m, rl[..j], n))
    && (forall k :: 0 <= k < j ==> RelationLinked(m, rl, k))
  }


  /** One more relation considered: it joins the lists of the node it leaves and of the node it reaches. */
  lemma RelsSnoc(m: map<string, Element>, rl: seq<Element>, j: int, id: string)
    requires 0 <= j < |rl|
    ensures RelsFrom(m, rl[..j + 1], id)
         == RelsFrom(m, rl[..j], id) + (if Visible(m, rl[j]) && rl[j].from == Some(id) then [rl[j]] else [])
    ensures RelsTo(m, rl[..j + 1], id)
         == RelsTo(m, rl[..j], id) + (if Visible(m, rl[j]) && rl[j].to == Some(id) then [rl[j]] else [])
  {
    assert rl[..j + 1] == rl[..j] + [rl[j]];
    FilterSnoc(rl[..j], rl[j], (r: Element) => Visible(m, r) && r.from == Some(id));
    FilterSnoc(rl[..j], rl[j], (r: Element) => Visible(m, r) && r.to == Some(id));
  }

  lemma TargetsSnoc(m: map<string, Element>, rs: seq<Element>, r: Element)
    requires forall i :: 0 <= i < |rs| ==> Lookup(m, rs[i].to).Some?
    requires Lookup(m, r.to).Some?
    ensures Targets(m, rs + [r]) == Targets(m, rs) + [Lookup(m, r.to).value]
  {
    assert (rs + [r])[..|rs|] == rs;
  }

  lemma SourcesSnoc(m: map<string, Element>, rs: seq<Element>, r: Element)
    requires forall i :: 0 <= i < |rs| ==> Lookup(m, rs[i].from).Some?
    requires Lookup(m, r.from).Some?
    ensures Sources(m, rs + [r]) == Sources(m, rs) + [Lookup(m, r.from).value]
  {
    assert (rs + [r])[..|rs|] == rs;
  }

  /**
   * Linking one more relation `rl[j]` appends it to the outgoing list of
   * the node it leaves and to the incoming list of the node it reaches, and
   * appends the node at the other end to the children or the parents.
   */
  lemma {:induction false} LinksSnoc(m: map<string, Element>, rl: seq<Element>, j: int, id: string,
                                     fromRels: seq<Element>, toRels: seq<Element>,
                                     children: seq<Element>, parents: seq<Element>)
    requires 0 <= j < |rl|
    requires Links(m, rl[..j], id, fromRels, toRels, children, parents)
    ensures var r := rl[j];
            var out := Visible(m, r) && r.from == Some(id);
            var inc := Visible(m, r) && r.to == Some(id);
            Links(m, rl[..j + 1], id,
                  fromRels + (if out then [r] else []), toRels + (if inc then [r] else []),
                  children + (if out then [m[r.to.value]] else []),
                  parents + (if inc then [m[r.from.value]] else []))
  {
    var r := rl[j];
    var out := Visible(m, r) && r.from == Some(id);
    var inc := Visible(m, r) && r.to == Some(id);
    var fr := fromRels + (if out then [r] else []);
    var tr := toRels + (if inc then [r] else []);
    RelsSnoc(m, rl, j, id);
    RelsFromVisible(m, rl[..j + 1], id);
    assert fr == RelsFrom(m, rl[..j + 1], id) && tr == RelsTo(m, rl[..j + 1], id);
    if out {
      TargetsSnoc(m, fromRels, r);
    } else {
      assert fr == fromRels;
    }
    if inc {
      SourcesSnoc(m, toRels, r);
    } else {
      assert tr == toRels;
    }
  }

  /**
   * The element table: `ids` lists the keys in the order the object visits
   * them (array-index ids first, by value, then the rest as they were
   * added), and each element is stored under its own id.
   */
  ghost predicate Table(m: map<string, Element>, ids: seq<string>, repr: set<Element>)
  {
    && NoDuplicates(ids)
    && (forall i :: 0 <= i < |ids| ==> ids[i] in m)
    && (forall id :: id in m ==> id in ids)
    && IdKeyed(m)
    && m.Values <= repr
    && EndsAreNodes(m)
    && InKeyOrder(ids)
  }

  /** The end nodes a stored relation remembers are (or were) chart elements. */
  ghost predicate ClosedIn(m: map<string, Element>, repr: set<Element>)
    reads m.Values`fromNode, m.Values`toNode
  {
    forall e :: e in m.Values ==>
      && (e.fromNode != null ==> e.fromNode in repr)
      && (e.toNode != null ==> e.toNode in repr)
  }

  /** A relation list of the table `m`: relations of the table, each once. */
  ghost predicate RelationList(m: map<string, Element>, rl: seq<Element>)
  {
    NoDuplicates(rl) && forall r :: r in rl ==> r in m.Values && !r.isNode
  }

  /** The node and relation lists of the table `m`, each sorted by `order`. */
  ghost predicate Installed(m: map<string, Element>, ids: seq<string>, nl: seq<Element>, rl: seq<Element>)
  {
    && (forall i :: 0 <= i < |ids| ==> ids[i] in m)
    && nl == ByOrder(NodesOf(Listed(m, ids)))
    && rl == ByOrder(RelationsOf(Listed(m, ids)))
    && RelationList(m, rl)
  }

  /** The elements of a table in iteration order: each once, and all of them. */
  lemma ListedTable(m: map<string, Element>, ids: seq<string>)
    requires NoDuplicates(ids) && IdKeyed(m)
    requires forall i :: 0 <= i < |ids| ==> ids[i] in m
    requires forall id :: id in m ==> id in ids
    ensures var l := Listed(m, ids);
            && NoDuplicates(l)
            && (forall e :: e in l <==> e in m.Values)
  {
    var l := Listed(m, ids);
    forall a, b | 0 <= a < b < |l| ensures l[a] != l[b] {
      assert l[a].id == ids[a] && l[b].id == ids[b];
    }
    forall e | e in m.Values ensures e in l {
      ValueKey(m, e);
      var k :| 0 <= k < |ids| && ids[k] == e.id;
      assert l[k] == e;
    }
  }

  /** Every relation of a table is in its sorted relation list. */
  lemma ListedRelation(m: map<string, Element>, ids: seq<string>, rl: seq<Element>, r: Element)
    requires NoDuplicates(ids) && IdKeyed(m)
    requires forall i :: 0 <= i < |ids| ==> ids[i] in m
    requires forall id :: id in m ==> id in ids
    requires rl == ByOrder(RelationsOf(Listed(m, ids)))
    requires r in m.Values && !r.isNode
    ensures r in rl
  {
    ListedTable(m, ids);
    FilterMember(Listed(m, ids), (e: Element) => !e.isNode, r);
    assert r in multiset(RelationsOf(Listed(m, ids)));
  }

  /** After a rebuild over the sorted relation list, a drawn relation is listed by both of its end nodes. */
  lemma DrawnAtEnds(m: map<string, Element>, ids: seq<string>, rl: seq<Element>, r: Element)
    requires NoDuplicates(ids) && IdKeyed(m) && EndsAreNodes(m)
    requires forall i :: 0 <= i < |ids| ==> ids[i] in m
    requires forall id :: id in m ==> id in ids
    requires rl == ByOrder(RelationsOf(Listed(m, ids)))
    requires forall n {:trigger NodeLinked(m, rl[..|rl|], n)} :: n in m.Values && n.isNode ==> NodeLinked(m, rl[..|rl|], n)
    requires r in m.Values && !r.isNode && Visible(m, r)
    ensures r in m[r.from.value].fromRels && r in m[r.to.value].toRels
  {
    ListedRelation(m, ids, rl, r);
    var f, t := m[r.from.value], m[r.to.value];
    ValueKey(m, r);
    assert f in m.Values && f.isNode && t in m.Values && t.isNode;
    assert rl[..|rl|] == rl;
    assert NodeLinked(m, rl[..|rl|], f) && NodeLinked(m, rl[..|rl|], t);
    RelsMember(m, rl, r);
  }

  /** The sorted relation list of a table: each relation once, and only relations of the table. */
  lemma TableRelations(m: map<string, Element>, ids: seq<string>, rels: seq<Element>)
    requires NoDuplicates(ids) && IdKeyed(m)
    requires forall i :: 0 <= i < |ids| ==> ids[i] in m
    requires forall id :: id in m ==> id in ids
    requires rels == RelationsOf(Listed(m, ids))
    ensures RelationList(m, ByOrder(rels))
  {
    ListedTable(m, ids);
    SortedRelations(m, Listed(m, ids), rels);
  }

  /** The sorted relation list holds exactly the stored relations, each once. */
  lemma SortedRelations(m: map<string, Element>, listed: seq<Element>, rels: seq<Element>)
    requires NoDuplicates(listed) && forall e :: e in listed <==> e in m.Values
    requires rels == RelationsOf(listed)
    ensures NoDuplicates(ByOrder(rels))
    ensures forall r :: r in ByOrder(rels) ==> r in m.Values && !r.isNode
  {
    FilterNoDuplicates(listed, (e: Element) => !e.isNode);
    PermutationNoDuplicates(rels, ByOrder(rels));
    forall r | r in ByOrder(rels) ensures r in m.Values && !r.isNode {
      assert r in multiset(ByOrder(rels));
      FilterMember(listed, (e: Element) => !e.isNode, r);
    }
  }

  // ---------------------------------------------------------------------
  // Partial render map
  // ---------------------------------------------------------------------

  /** Some element of `rs` has the id `k`. */
  predicate HasId(rs: seq<Element>, k: string)
  {
    exists i :: 0 <= i < |rs| && rs[i].id == k
  }

  /** `rs.forEach(rel => map[rel.id] = rel)` applied to an empty map. */
  function ById(rs: seq<Element>): (r: map<string, Element>)
    ensures forall k :: k in r <==> HasId(rs, k)
    ensures forall k :: k in r ==> r[k].id == k
  {
    if rs == [] then map[]
    else
      var last := rs[|rs| - 1];
      var r := ById(rs[..|rs| - 1])[last.id := last];
      assert forall k :: HasId(rs, k) <==> HasId(rs[..|rs| - 1], k) || k == last.id by {
        forall k | HasId(rs, k) && k != last.id ensures HasId(rs[..|rs| - 1], k) {
          var i :| 0 <= i < |rs| && rs[i].id == k;
          assert rs[..|rs| - 1][i] == rs[i];
        }
        forall k | HasId(rs[..|rs| - 1], k) ensures HasId(rs, k) {
          var i :| 0 <= i < |rs| - 1 && rs[..|rs| - 1][i].id == k;
          assert rs[i].id == k;
        }
      }
      r
  }

  // ---------------------------------------------------------------------
  // Exported data
  // ---------------------------------------------------------------------

  /** One exported element: its flat properties and, unless merged, its `data` object. */
  datatype Item = Item(fields: map<string, Value>, data: Option<map<string, Value>>)

  /**
   * FlowChartElement.exportData: the copied properties, the id, type name,
   * text and order, a relation's `hideArrow` and its ends and ports when
   * set, the position when it is custom, and the data object.
   */
  function Record(e: Element): (it: Item)
    reads e
    ensures it.fields.Keys >= {"id", "type", "text", "order"}
    ensures it.fields["id"] == Str(e.id) && it.fields["type"] == Str(e.typeName)
    ensures it.fields["text"] == Str(e.text) && it.fields["order"] == Num(e.order)
    ensures !e.isNode ==> "hideArrow" in it.fields && it.fields["hideArrow"] == Bool(e.hideArrow)
    ensures e.position.custom != Unset ==> "position" in it.fields && it.fields["position"] == SavedPosition(e)
    ensures forall k :: k in e.copied && k !in ComputedKeys ==> k in it.fields && it.fields[k] == e.copied[k]
    ensures it.data == Some(e.data)
  {
    Item(e.copied + OwnFields(e), Some(e.data))
  }

  /** The fields exportData takes from the element's computed properties. */
  function OwnFields(e: Element): (m: map<string, Value>)
    reads e
    ensures "id" in m && "type" in m && "text" in m && "order" in m
    ensures m["id"] == Str(e.id) && m["type"] == Str(e.typeName)
    ensures m["text"] == Str(e.text) && m["order"] == Num(e.order)
    ensures !e.isNode ==> "hideArrow" in m && m["hideArrow"] == Bool(e.hideArrow)
    ensures e.position.custom != Unset ==> "position" in m && m["position"] == SavedPosition(e)
    ensures m.Keys <= ComputedKeys
  {
    ExportFields(e.id, e.typeName, e.text, e.order,
                 if e.isNode then None else Some(RelationFields(e)),
                 if e.position.custom != Unset then Some(SavedPosition(e)) else None)
  }

  /** What a relation adds to its export: `hideArrow`, and its ends and ports when set. */
  function RelationFields(e: Element): (m: map<string, Value>)
    reads e
    ensures "hideArrow" in m && m["hideArrow"] == Bool(e.hideArrow)
    ensures m.Keys <= {"hideArrow", "from", "to", "fromPort", "toPort"}
  {
    OptStr("from", e.from) + OptStr("to", e.to) + OptStr("fromPort", e.fromPort) + OptStr("toPort", e.toPort)
      + map["hideArrow" := Bool(e.hideArrow)]
  }

  /** The computed fields of an export, from the element's values. */
  function ExportFields(id: string, typeName: string, text: string, order: int,
                        relation: Option<map<string, Value>>, saved: Option<Value>): (m: map<string, Value>)
    requires relation.Some? ==> "hideArrow" in relation.value
    requires relation.Some? ==> relation.value.Keys <= {"hideArrow", "from", "to", "fromPort", "toPort"}
    ensures "id" in m && "type" in m && "text" in m && "order" in m
    ensures m["id"] == Str(id) && m["type"] == Str(typeName) && m["text"] == Str(text) && m["order"] == Num(order)
    ensures relation.Some? ==> "hideArrow" in m && m["hideArrow"] == relation.value["hideArrow"]
    ensures saved.Some? ==> "position" in m && m["position"] == saved.value
    ensures m.Keys <= ComputedKeys
  {
    var rel := if relation.Some? then relation.value else map[];
    var pos := if saved.Some? then map["position" := saved.value] else map[];
    rel + map["id" := Str(id), "type" := Str(typeName), "text" := Str(text), "order" := Num(order)] + pos
  }

  /** The keys exportData fills from the element's computed properties. */
  const ComputedKeys: set<string> :=
    {"id", "type", "text", "order", "hideArrow", "from", "to", "fromPort", "toPort", "position"}

  /** getPosition: a node's corner, a relation's curve offsets. */
  function SavedPosition(e: Element): Value
    reads e
  {
    if e.isNode then Place(e.bounds.left, e.bounds.top) else CurveShape(e.shape)
  }

  /**
   * With `exportDataToSelf`, `$.extend(item, item.data)` then
   * `delete item.data`: data keys win over properties, and a data key
   * named "data" is lost with the object.
   */
  function Merged(it: Item): (r: Item)
    ensures r.data.None?
    ensures it.data.Some? ==> r.fields.Keys == (it.fields.Keys + it.data.value.Keys) - {"data"}
    ensures it.data.Some? ==> forall k :: k in it.data.value && k != "data" ==> r.fields[k] == it.data.value[k]
    ensures it.data.Some? ==> forall k :: k in it.fields && k !in it.data.value && k != "data" ==> r.fields[k] == it.fields[k]
  {
    if it.data.Some? then Item((it.fields + it.data.value) - {"data"}, None) else it
  }

  /** The item as it stands before sorting. */
  function Prepared(e: Element, selfMerge: bool): (it: Item)
    reads e
    ensures it.data.None? <==> selfMerge
  {
    if selfMerge then Merged(Record(e)) else Record(e)
  }

  /** The items of the listed elements, before sorting. */
  function PreparedAll(l: seq<Element>, selfMerge: bool): (r: seq<Item>)
    reads l
    ensures |r| == |l| && forall i :: 0 <= i < |l| ==> r[i] == Prepared(l[i], selfMerge)
  {
    seq(|l|, i reads l requires 0 <= i < |l| => Prepared(l[i], selfMerge))
  }

  /** The sort key `order`, for items whose `order` is a number. */
  function OrderKey(it: Item): int
  {
    if "order" in it.fields && it.fields["order"].Num? then it.fields["order"].n else 0
  }

  predicate NumericOrder(it: Item)
  {
    "order" in it.fields && it.fields["order"].Num?
  }

  /** `delete dataItem.order`. */
  function Stripped(it: Item): (r: Item)
    ensures "order" !in r.fields && r.data == it.data
    ensures forall k :: k in it.fields && k != "order" ==> k in r.fields && r.fields[k] == it.fields[k]
    ensures forall k :: k in r.fields ==> k in it.fields
  {
    Item(it.fields - {"order"}, it.data)
  }

  /**
   * The tail of exportData on values: a stable sort by `order`, then
   * `delete item.order` on every item.
   */
  method SortAndStrip(items: seq<Item>, ghost merged: bool) returns (list: seq<Item>, ghost sorted: seq<Item>)
    requires forall i :: 0 <= i < |items| ==> (items[i].data.None? <==> merged)
    ensures |list| == |sorted| == |items|
    ensures multiset(sorted) == multiset(items) && SortedBy(sorted, OrderKey)
    ensures StableBy(sorted, items, OrderKey)
    ensures forall i :: 0 <= i < |list| ==> list[i] == Stripped(sorted[i])
    ensures forall i :: 0 <= i < |list| ==> (list[i].data.None? <==> merged)
  {
    var s := SortBy(items, OrderKey);
    SortedItems(items);
    sorted := s;
    list := StripAll(s);
    SameItemsMerged(items, s, merged);
  }

  /** The stable sort by `order` of the items. */
  lemma SortedItems(items: seq<Item>)
    ensures var s := SortBy(items, OrderKey);
      && multiset(s) == multiset(items) && SortedBy(s, OrderKey)
      && StableBy(s, items, OrderKey)
  {
    var s := SortBy(items, OrderKey);
    SortBySorted(items, OrderKey);
    forall k ensures WithKey(s, OrderKey, k) == WithKey(items, OrderKey, k) {
      SortByStable(items, OrderKey, k);
    }
  }

  /** `delete item.order` on every item, in order. */
  method StripAll(s: seq<Item>) returns (list: seq<Item>)
    ensures |list| == |s| && forall k :: 0 <= k < |s| ==> list[k] == Stripped(s[k])
  {
    list := [];
    var j := 0;
    while j < |s|
      invariant 0 <= j <= |s|
      invariant |list| == j && forall k :: 0 <= k < j ==> list[k] == Stripped(s[k])
    {
      list := list + [Stripped(s[j])];
      j := j + 1;
    }
  }

  /** A permutation keeps every item's merged state. */
  lemma SameItemsMerged(a: seq<Item>, b: seq<Item>, merged: bool)
    requires multiset(a) == multiset(b)
    requires forall i :: 0 <= i < |a| ==> (a[i].data.None? <==> merged)
    ensures forall i :: 0 <= i < |b| ==> (b[i].data.None? <==> merged)
  {
    forall k | 0 <= k < |b| ensures b[k].data.None? <==> merged {
      assert b[k] in multiset(a);
      var x :| 0 <= x < |a| && a[x] == b[k];
    }
  }

  /** The collecting loop: reset every element of `l` and file it with the nodes or the relations. */
  method ResetAll(l: seq<Element>) returns (nodes: seq<Element>, rels: seq<Element>)
    modifies l`fromRels, l`toRels, l`children, l`parents, l`siblingsIndex
    ensures nodes == NodesOf(l) && rels == RelationsOf(l)
    ensures forall n :: n in nodes ==> Cleared(n)
  {
    nodes, rels := [], [];
    var i := 0;
    while i < |l|
      invariant 0 <= i <= |l|
      invariant nodes == NodesOf(l[..i]) && rels == RelationsOf(l[..i])
      invariant forall n :: n in nodes ==> Cleared(n)
    {
      var e := l[i];
      e.InitBeforeRender();
      assert l[..i + 1] == l[..i] + [e];
      FilterSnoc(l[..i], e, (e: Element) => e.isNode);
      FilterSnoc(l[..i], e, (e: Element) => !e.isNode);
      if e.isNode {
        nodes := nodes + [e];
      } else {
        rels := rels + [e];
      }
      i := i + 1;
    }
    assert l[..i] == l;
  }

  /** Every node of a table listing all its elements is among the listed nodes. */
  lemma NodesCovered(l: seq<Element>, m: map<string, Element>)
    requires forall e :: e in m.Values ==> e in l
    ensures forall n :: n in m.Values && n.isNode ==> n in NodesOf(l)
  {
    forall n | n in m.Values && n.isNode ensures n in NodesOf(l) {
      FilterMember(l, (e: Element) => e.isNode, n);
    }
  }

  // ---------------------------------------------------------------------
  // The chart
  // ---------------------------------------------------------------------

  class FlowChart {
    /** `elements`, keyed by id. */
    var elements: map<string, Element>
    /** The order in which `for (id in elements)` visits the keys of `elements`. */
    var ids: seq<string>
    var nodeList: seq<Element>
    var relationList: seq<Element>
    /** `bounds` of the chart, grown by setBounds. */
    const canvas: Canvas
    /** Every element the chart has held; links never leave it. */
    ghost var Repr: set<Element>

    ghost predicate Valid()
      reads this`elements, this`ids, this`Repr, Repr`fromNode, Repr`toNode
    {
      Table(elements, ids, Repr) && ClosedIn(elements, Repr)
    }

    /** The state a rebuild leaves behind. */
    ghost predicate Linked()
      requires Valid()
      reads this, Repr
    {
      && Installed(elements, ids, nodeList, relationList)
      && LinkedUpTo(elements, relationList, |relationList|)
      && (forall n :: n in elements.Values && n.isNode ==> n.siblingsIndex.None?)
    }

    constructor (padding: real)
      ensures Valid() && Linked()
      ensures elements == map[] && ids == [] && Repr == {}
    {
      elements := map[];
      ids := [];
      nodeList := [];
      relationList := [];
      canvas := new Canvas(padding);
      Repr := {};
    }

    /** getElement. */
    function GetElement(id: Option<string>): (r: Option<Element>)
      reads this
      ensures r == Lookup(elements, id)
    {
      Lookup(elements, id)
    }

    /** The end nodes of a visible relation. */
    function Ends(r: Element): (s: set<Element>)
      reads this
      ensures s <= elements.Values
    {
      if Visible(elements, r) then {elements[r.from.value], elements[r.to.value]} else {}
    }

    /**
     * initRelationBeforeRender: a relation whose two ends exist is linked
     * into them; its indices are the lengths of the start node's lists
     * before the link.
     */
    method InitRelationBeforeRender(r: Element)
      requires !r.isNode
      requires Lookup(elements, r.from).Some? ==> Lookup(elements, r.from).value.isNode
      requires Lookup(elements, r.to).Some? ==> Lookup(elements, r.to).value.isNode
      modifies r`visible, r`fromIndex, r`toIndex, r`fromNode, r`toNode
      modifies Ends(r)`fromRels, Ends(r)`toRels, Ends(r)`children, Ends(r)`parents
      ensures r.visible == Visible(elements, r)
      ensures !Visible(elements, r) ==>
                r.fromNode == old(r.fromNode) && r.toNode == old(r.toNode)
                && r.fromIndex == old(r.fromIndex) && r.toIndex == old(r.toIndex)
      ensures Visible(elements, r) ==>
                var f, t := elements[r.from.value], elements[r.to.value];
                && r.fromNode == f && r.toNode == t
                && r.fromIndex == |old(f.fromRels)| && r.toIndex == |old(f.toRels)|
                && f.fromRels == old(f.fromRels) + [r] && t.toRels == old(t.toRels) + [r]
                && f.children == old(f.children) + [t] && t.parents == old(t.parents) + [f]
                && f.toRels == (if f == t then old(f.toRels) + [r] else old(f.toRels))
                && t.fromRels == (if f == t then old(t.fromRels) + [r] else old(t.fromRels))
                && f.parents == (if f == t then old(f.parents) + [f] else old(f.parents))
                && t.children == (if f == t then old(t.children) + [t] else old(t.children))
    {
      var fromNode := GetElement(r.from);
      var toNode := GetElement(r.to);
      r.visible := fromNode.Some? && toNode.Some?;
      if r.visible {
        var f, t := fromNode.value, toNode.value;
        r.fromIndex := |f.fromRels|;
        r.toIndex := |f.toRels|;
        r.fromNode := f;
        r.toNode := t;
        f.fromRels := f.fromRels + [r];
        t.toRels := t.toRels + [r];
        f.children := f.children + [t];
        t.parents := t.parents + [f];
      }
    }
    /** The listed elements are the stored ones, each once. */
    lemma ListedFacts()
      requires Valid()
      ensures var l := Listed(elements, ids);
              && NoDuplicates(l)
              && (forall e :: e in l <==> e in elements.Values)
    {
      ListedTable(elements, ids);
    }

    /**
     * `for (id in elements)` reaches the elements stored under array-index
     * ids first, by ascending value, before any other element.
     */
    lemma ListedOrder()
      requires Valid()
      ensures var l := Listed(elements, ids);
              forall i, j :: 0 <= i < j < |l| && IsIndexKey(l[j].id) ==>
                IsIndexKey(l[i].id) && IndexValue(l[i].id) <= IndexValue(l[j].id)
    {
      var l := Listed(elements, ids);
      forall i, j | 0 <= i < j < |l| && IsIndexKey(l[j].id)
        ensures IsIndexKey(l[i].id) && IndexValue(l[i].id) <= IndexValue(l[j].id)
      {
        assert l[i].id == ids[i] && l[j].id == ids[j];
      }
    }

    /**
     * The first half of _initElementsRelation: every node forgets its links
     * (initBeforeRender), and the nodes and relations are collected in
     * iteration order.
     */
    method ResetAndCollect() returns (nodes: seq<Element>, rels: seq<Element>)
      requires Valid()
      modifies elements.Values`fromRels, elements.Values`toRels, elements.Values`children
      modifies elements.Values`parents, elements.Values`siblingsIndex
      ensures Valid() && unchanged(this)
      ensures nodes == NodesOf(Listed(elements, ids)) && rels == RelationsOf(Listed(elements, ids))
      ensures forall n :: n in elements.Values && n.isNode ==> Cleared(n)
    {
      ListedFacts();
      var listed := Listed(elements, ids);
      nodes, rels := ResetAll(listed);
      NodesCovered(listed, elements);
    }

    /**
     * initRelationBeforeRender, seen from any one node: a node gains the
     * relation (and the node at its other end) exactly when it is the
     * relation's start or end node.
     */
    method LinkEach(r: Element)
      requires Valid() && r in elements.Values && !r.isNode
      modifies r`visible, r`fromIndex, r`toIndex, r`fromNode, r`toNode
      modifies Ends(r)`fromRels, Ends(r)`toRels, Ends(r)`children, Ends(r)`parents
      ensures Valid()
      ensures r.visible == Visible(elements, r)
      ensures !Visible(elements, r) ==>
                r.fromNode == old(r.fromNode) && r.toNode == old(r.toNode)
                && r.fromIndex == old(r.fromIndex) && r.toIndex == old(r.toIndex)
      ensures Visible(elements, r) ==>
                var f, t := elements[r.from.value], elements[r.to.value];
                && r.fromNode == f && r.toNode == t
                && r.fromIndex == |old(f.fromRels)| && r.toIndex == |old(f.toRels)|
      ensures forall n :: n in old(elements).Values && n.isNode ==>
                var out := Visible(elements, r) && r.from == Some(n.id);
                var inc := Visible(elements, r) && r.to == Some(n.id);
                && n.fromRels == old(n.fromRels) + (if out then [r] else [])
                && n.toRels == old(n.toRels) + (if inc then [r] else [])
                && n.children == old(n.children) + (if out then [elements[r.to.value]] else [])
                && n.parents == old(n.parents) + (if inc then [elements[r.from.value]] else [])
    {
      ghost var m := elements;
      ValueKey(elements, r);
      InitRelationBeforeRender(r);
      forall n | n in m.Values && n.isNode
        ensures var out := Visible(m, r) && r.from == Some(n.id);
                var inc := Visible(m, r) && r.to == Some(n.id);
                && n.fromRels == old(n.fromRels) + (if out then [r] else [])
                && n.toRels == old(n.toRels) + (if inc then [r] else [])
                && n.children == old(n.children) + (if out then [m[r.to.value]] else [])
                && n.parents == old(n.parents) + (if inc then [m[r.from.value]] else [])
      {
        ValueKey(m, n);
        if Visible(m, r) {
          var f, t := m[r.from.value], m[r.to.value];
          ValueKey(m, f);
          ValueKey(m, t);
          assert (n == f) == (r.from == Some(n.id)) && (n == t) == (r.to == Some(n.id));
          if n != f && n != t {
            assert n !in old(Ends(r));
          }
        } else {
          assert old(Ends(r)) == {};
        }
      }
    }

    /**
     * initRelationBeforeRender on `rl[j]`, the relations before it being
     * linked already: every node's lists now cover `rl[..j + 1]`, and
     * `rl[j]` records its place.
     */
    method LinkOne(ghost m: map<string, Element>, rl: seq<Element>, j: int, r: Element)
      requires Valid() && m == elements
      requires 0 <= j < |rl| && rl[j] == r && r in elements.Values && !r.isNode
      requires forall n {:trigger NodeLinked(m, rl[..j], n)} :: n in m.Values && n.isNode ==> NodeLinked(m, rl[..j], n)
      modifies r`visible, r`fromIndex, r`toIndex, r`fromNode, r`toNode
      modifies Ends(r)`fromRels, Ends(r)`toRels, Ends(r)`children, Ends(r)`parents
      ensures Valid()
      ensures forall n {:trigger NodeLinked(m, rl[..j + 1], n)} :: n in m.Values && n.isNode ==> NodeLinked(m, rl[..j + 1], n)
      ensures RelationLinked(m, rl, j)
      ensures !Visible(m, r) ==> EndsOf(r) == old(EndsOf(r))
    {
      ValueKey(m, r);
      if Visible(m, r) {
        var f := m[r.from.value];
        ValueKey(m, f);
        assert m[r.id] == r && f.isNode;
        assert NodeLinked(m, rl[..j], f);
      }
      LinkEach(r);
      forall n | n in m.Values && n.isNode ensures NodeLinked(m, rl[..j + 1], n) {
        assert old(NodeLinked(m, rl[..j], n));
        LinksSnoc(m, rl, j, n.id, old(n.fromRels), old(n.toRels), old(n.children), old(n.parents));
      }
    }

    /** One step of the linking loop: the loop's invariant moves from `j` to `j + 1`. */
    method LinkNext(ghost m: map<string, Element>, rl: seq<Element>, j: int, ghost snap: map<Element, RelationEnds>)
      requires Valid() && m == elements
      requires 0 <= j < |rl| && NoDuplicates(rl) && forall r :: r in rl ==> r in m.Values && !r.isNode
      requires LinkedUpTo(m, rl, j) && Kept(m, snap)
      modifies m.Values`fromRels, m.Values`toRels, m.Values`children, m.Values`parents
      modifies m.Values`visible, m.Values`fromIndex, m.Values`toIndex, m.Values`fromNode, m.Values`toNode
      ensures Valid()
      ensures LinkedUpTo(m, rl, j + 1) && Kept(m, snap)
    {
      var r := rl[j];
      ghost var ends := Ends(r);
      assert forall x :: x in ends ==> x.isNode by {
        if Visible(m, r) {
          ValueKey(m, r);
        }
      }
      assert forall k :: 0 <= k < j ==> rl[k] != r && rl[k] !in ends;
      LinkKept(m, rl, j, r, snap);
    }

    /** Linking `rl[j]` changes the remembered ends of no relation that stays undrawn. */
    method LinkKept(ghost m: map<string, Element>, rl: seq<Element>, j: int, r: Element, ghost snap: map<Element, RelationEnds>)
      requires Valid() && m == elements
      requires 0 <= j < |rl| && rl[j] == r && r in elements.Values && !r.isNode
      requires forall n {:trigger NodeLinked(m, rl[..j], n)} :: n in m.Values && n.isNode ==> NodeLinked(m, rl[..j], n)
      requires Kept(m, snap)
      requires forall k :: 0 <= k < j ==> RelationLinked(m, rl, k) && rl[k] != r && rl[k] !in Ends(r)
      modifies r`visible, r`fromIndex, r`toIndex, r`fromNode, r`toNode
      modifies Ends(r)`fromRels, Ends(r)`toRels, Ends(r)`children, Ends(r)`parents
      ensures Valid()
      ensures forall n {:trigger NodeLinked(m, rl[..j + 1], n)} :: n in m.Values && n.isNode ==> NodeLinked(m, rl[..j + 1], n)
      ensures forall k :: 0 <= k <= j ==> RelationLinked(m, rl, k)
      ensures Kept(m, snap)
    {
      LinkOne(m, rl, j, r);
      forall k | 0 <= k < j ensures RelationLinked(m, rl, k) {
        assert old(RelationLinked(m, rl, k));
      }
      forall e | e in m.Values && !e.isNode && !Visible(m, e) ensures e in snap && EndsOf(e) == snap[e] {
        assert old(EndsOf(e)) == snap[e];
      }
    }

    /**
     * The second half of _initElementsRelation: initRelationBeforeRender on
     * every relation of `rl`, in order, starting from nodes without links.
     */
    method LinkRelations(rl: seq<Element>)
      requires Valid()
      requires RelationList(elements, rl)
      requires forall n :: n in elements.Values && n.isNode ==> Cleared(n)
      modifies elements.Values`fromRels, elements.Values`toRels, elements.Values`children
      modifies elements.Values`parents, elements.Values`visible
      modifies elements.Values`fromIndex, elements.Values`toIndex, elements.Values`fromNode
      modifies elements.Values`toNode
      ensures Valid()
      ensures LinkedUpTo(elements, rl, |rl|)
      ensures forall r :: r in elements.Values && !r.isNode && !Visible(elements, r) ==> EndsOf(r) == old(EndsOf(r))
    {
      ghost var m := elements;
      ghost var snap := map r | r in m.Values :: EndsOf(r);
      forall n | n in m.Values && n.isNode ensures NodeLinked(m, rl[..0], n) {
        assert rl[..0] == [];
      }
      var j := 0;
      while j < |rl|
        invariant 0 <= j <= |rl|
        invariant Valid()
        invariant LinkedUpTo(m, rl, j) && Kept(m, snap)
      {
        LinkNext(m, rl, j, snap);
        j := j + 1;
      }
    }

    /**
     * The first half of _initElementsRelation, with the two lists sorted
     * and installed: every node is without links, and no relation's links
     * have changed.
     */
    method Collect()
      requires Valid()
      modifies this`nodeList, this`relationList
      modifies elements.Values`fromRels, elements.Values`toRels, elements.Values`children
      modifies elements.Values`parents, elements.Values`siblingsIndex
      ensures Valid()
      ensures Installed(elements, ids, nodeList, relationList)
      ensures forall n :: n in elements.Values && n.isNode ==> Cleared(n)
    {
      var nodes, rels := ResetAndCollect();
      Install(nodes, rels);
    }

    /** Sorts the collected nodes and relations by `order` and keeps them as the chart's lists. */
    method Install(nodes: seq<Element>, rels: seq<Element>)
      requires Valid()
      requires nodes == NodesOf(Listed(elements, ids)) && rels == RelationsOf(Listed(elements, ids))
      modifies this`nodeList, this`relationList
      ensures Installed(elements, ids, nodeList, relationList)
    {
      ListedFacts();
      TableRelations(elements, ids, rels);
      nodeList, relationList := ByOrder(nodes), ByOrder(rels);
    }

    /**
     * _initElementsRelation: every node forgets its links; the nodes and
     * the relations are collected in iteration order and each list sorted
     * by `order`; then every relation is linked, in list order (a relation
     * that is not drawn keeps whatever end nodes and indices it had, as
     * LinkRelations states; Collect does not touch them).
     */
    method Rebuild()
      requires Valid()
      modifies this`nodeList, this`relationList
      modifies elements.Values`fromRels, elements.Values`toRels, elements.Values`children
      modifies elements.Values`parents, elements.Values`siblingsIndex, elements.Values`visible
      modifies elements.Values`fromIndex, elements.Values`toIndex, elements.Values`fromNode
      modifies elements.Values`toNode
      ensures Valid() && Linked() && ListsSound() && ListsExact()
    {
      Collect();
      LinkRelations(relationList);
      LinkedLists();
    }

    /**
     * The store step of `update`: the element is written under its id (a
     * new id takes its place in the visiting order, an existing one keeps
     * its place), then the
     * chart is rebuilt. When a stored relation would name a relation as an
     * end, the rebuild fails on it (`fromNode.fromRels` of a relation is
     * undefined) and `ok` is false.
     */
    method Put(e: Element) returns (ok: bool)
      requires Valid()
      requires e.fromNode == null || e.fromNode in Repr
      requires e.toNode == null || e.toNode in Repr
      modifies this`elements, this`ids, this`Repr, this`nodeList, this`relationList
      modifies elements.Values`fromRels, elements.Values`toRels, elements.Values`children
      modifies elements.Values`parents, elements.Values`siblingsIndex, elements.Values`visible
      modifies elements.Values`fromIndex, elements.Values`toIndex, elements.Values`fromNode
      modifies elements.Values`toNode
      modifies e`fromRels, e`toRels, e`children, e`parents, e`siblingsIndex, e`visible
      modifies e`fromIndex, e`toIndex, e`fromNode, e`toNode
      ensures ok <==> EndsAreNodes(old(elements)[e.id := e])
      ensures ok ==> elements == old(elements)[e.id := e]
      ensures ok ==> ids == if e.id in old(elements) then old(ids) else AddKey(old(ids), e.id)
      ensures !ok ==> elements == old(elements) && ids == old(ids)
      ensures Valid() && (ok ==> Linked())
    {
      ok := Store(e);
      if ok {
        Rebuild();
      }
    }

    /** Writes the element under its id, before the rebuild; refused when a relation would end at a relation. */
    method Store(e: Element) returns (ok: bool)
      requires Valid()
      requires e.fromNode == null || e.fromNode in Repr
      requires e.toNode == null || e.toNode in Repr
      modifies this`elements, this`ids, this`Repr
      ensures ok <==> EndsAreNodes(old(elements)[e.id := e])
      ensures ok ==> elements == old(elements)[e.id := e]
      ensures ok ==> ids == if e.id in old(elements) then old(ids) else AddKey(old(ids), e.id)
      ensures !ok ==> elements == old(elements) && ids == old(ids) && Repr == old(Repr)
      ensures Valid()
      ensures elements.Values <= old(elements).Values + {e}
    {
      ok := EndsAreNodes(elements[e.id := e]);
      if !ok {
        return;
      }
      PutTable(elements, ids, e);
      if e.id !in elements {
        ids := AddKey(ids, e.id);
      }
      elements := elements[e.id := e];
      Repr := Repr + {e};
      assert Table(elements, ids, Repr);
    }

    /** An element's `order` stays numeric through the merge. */
    ghost predicate Exportable(selfMerge: bool)
      reads this, elements.Values
    {
      forall e :: e in elements.Values ==> NumericOrder(Prepared(e, selfMerge))
    }

    /** The `$.each` of exportData: one item per element, in the order the object visits its keys. */
    method CollectItems(selfMerge: bool) returns (items: seq<Item>)
      requires Valid()
      ensures items == PreparedAll(Listed(elements, ids), selfMerge)
    {
      ghost var target := PreparedAll(Listed(elements, ids), selfMerge);
      items := [];
      var i := 0;
      while i < |ids|
        invariant 0 <= i <= |ids|
        invariant items == target[..i]
      {
        var item := ItemOf(elements[ids[i]], selfMerge);
        assert target[i] == item;
        PrefixSnoc(target, i);
        items := items + [item];
        i := i + 1;
      }
    }

    /** The body of the collecting loop: the element's record, merged with its data when asked. */
    static method ItemOf(e: Element, selfMerge: bool) returns (item: Item)
      ensures item == Prepared(e, selfMerge)
    {
      item := Record(e);
      if selfMerge && item.data.Some? {
        item := Merged(item);
      }
    }

    /**
     * exportData: the items of every element, merged with their data when
     * asked, sorted stably by `order`, then stripped of `order`. `sorted`
     * is the list between the sort and the removal. When some merged
     * `order` is not a number the comparator yields NaN and is not
     * consistent, so only the permutation is promised then.
     */
    method ExportData(selfMerge: bool) returns (list: seq<Item>, ghost sorted: seq<Item>)
      requires Valid()
      ensures |list| == |sorted| == |ids|
      ensures multiset(sorted) == multiset(PreparedAll(Listed(elements, ids), selfMerge))
      ensures Exportable(selfMerge) ==>
                && SortedBy(sorted, OrderKey)
                && StableBy(sorted, PreparedAll(Listed(elements, ids), selfMerge), OrderKey)
      ensures forall i :: 0 <= i < |list| ==> list[i] == Stripped(sorted[i])
      ensures forall i :: 0 <= i < |list| ==> (list[i].data.None? <==> selfMerge)
    {
      ghost var target := PreparedAll(Listed(elements, ids), selfMerge);
      var items := CollectItems(selfMerge);
      assert items == target;
      list, sorted := SortAndStrip(items, selfMerge);
    }

    /**
     * What one seed id adds to the partial render map: the element itself
     * and, for a node, the relations in its `fromRels` and `toRels`; for a
     * relation, the end nodes it remembers. An id that names no element
     * adds nothing.
     */
    function AddSeed(pm: map<string, Element>, id: string): map<string, Element>
      reads this, elements.Values
    {
      match Lookup(elements, Some(id))
      case None => pm
      case Some(e) =>
        if e.isNode then pm[id := e] + ById(e.fromRels) + ById(e.toRels)
        else
          var a := pm[id := e];
          var b := if e.fromNode != null then a[e.fromNode.id := e.fromNode] else a;
          if e.toNode != null then b[e.toNode.id := e.toNode] else b
    }

    /** The partial render map of a list of seed ids, seed by seed. */
    function Expanded(seeds: seq<string>): map<string, Element>
      reads this, elements.Values
    {
      if seeds == [] then map[]
      else AddSeed(Expanded(seeds[..|seeds| - 1]), seeds[|seeds| - 1])
    }

    /** The seed `id` brings `k` into the partial render map. */
    predicate Explains(id: string, k: string)
      reads this, elements.Values
    {
      match Lookup(elements, Some(id))
      case None => false
      case Some(e) =>
        || k == id
        || (e.isNode && (HasId(e.fromRels, k) || HasId(e.toRels, k)))
        || (!e.isNode && ((e.fromNode != null && e.fromNode.id == k) || (e.toNode != null && e.toNode.id == k)))
    }

    lemma AddSeedKeys(pm: map<string, Element>, id: string)
      ensures forall k :: k in AddSeed(pm, id) <==> k in pm || Explains(id, k)
    {
    }

    /** A key is in the partial render map iff some seed brings it in. */
    lemma {:induction false} ExpandedKeys(seeds: seq<string>)
      ensures forall k :: k in Expanded(seeds) <==> exists i :: 0 <= i < |seeds| && Explains(seeds[i], k)
    {
      if seeds != [] {
        var init := seeds[..|seeds| - 1];
        ExpandedKeys(init);
        AddSeedKeys(Expanded(init), seeds[|seeds| - 1]);
        forall k | k in Expanded(seeds) ensures exists i :: 0 <= i < |seeds| && Explains(seeds[i], k) {
          if !Explains(seeds[|seeds| - 1], k) {
            var i :| 0 <= i < |init| && Explains(init[i], k);
            assert seeds[i] == init[i];
          }
        }
        forall k | exists i :: 0 <= i < |seeds| && Explains(seeds[i], k) ensures k in Expanded(seeds) {
          var i :| 0 <= i < |seeds| && Explains(seeds[i], k);
          if i < |init| {
            assert init[i] == seeds[i];
          }
        }
      }
    }

    /** Every entry of the partial render map is stored under its element's id. */
    lemma {:induction false} ExpandedKeyed(seeds: seq<string>)
      requires Valid()
      ensures forall k :: k in Expanded(seeds) ==> Expanded(seeds)[k].id == k
    {
      if seeds != [] {
        ExpandedKeyed(seeds[..|seeds| - 1]);
        var e := Lookup(elements, Some(seeds[|seeds| - 1]));
      }
    }

    /**
     * `canSkip` of _getPartialRenderMap: with partial rendering on, an
     * element may be skipped iff it is not in the map.
     */
    predicate CanSkip(enabled: bool, pm: map<string, Element>, id: string)
    {
      enabled && id !in pm
    }

    /**
     * With partial rendering off nothing is skipped; with it on, exactly the
     * ids that no seed brings in are skipped.
     */
    lemma CanSkipIff(seeds: seq<string>, id: string)
      ensures !CanSkip(false, Expanded(seeds), id)
      ensures CanSkip(true, Expanded(seeds), id) <==> forall i :: 0 <= i < |seeds| ==> !Explains(seeds[i], id)
    {
      ExpandedKeys(seeds);
    }

    /**
     * _getPartialRenderMap: partial rendering is on iff a non-empty list
     * of seed ids is given, and then the map is built seed by seed.
     */
    method PartialRenderMap(seeds: Option<seq<string>>) returns (enabled: bool, pm: map<string, Element>)
      ensures enabled <==> seeds.Some? && |seeds.value| > 0
      ensures pm == if enabled then Expanded(seeds.value) else map[]
    {
      enabled := seeds.Some? && |seeds.value| > 0;
      pm := map[];
      if enabled {
        var list := seeds.value;
        var i := 0;
        while i < |list|
          invariant 0 <= i <= |list|
          invariant pm == Expanded(list[..i])
        {
          assert list[..i + 1][..i] == list[..i];
          pm := AddSeedTo(pm, list[i]);
          i := i + 1;
        }
        assert list[..i] == list;
      }
    }

    /** One seed of the partial render map, added in place of `AddSeed`'s unions. */
    method AddSeedTo(pm0: map<string, Element>, id: string) returns (pm: map<string, Element>)
      ensures pm == AddSeed(pm0, id)
    {
      pm := pm0;
      var found := GetElement(Some(id));
      if found.Some? {
        var e := found.value;
        pm := pm[id := e];
        if e.isNode {
          pm := AddEach(pm, e.fromRels);
          pm := AddEach(pm, e.toRels);
        } else {
          if e.fromNode != null {
            pm := pm[e.fromNode.id := e.fromNode];
          }
          if e.toNode != null {
            pm := pm[e.toNode.id := e.toNode];
          }
        }
      }
    }

    // -------------------------------------------------------------------
    // delete
    // -------------------------------------------------------------------

    /**
     * What the node lists promise between rebuilds: each entry is a stored
     * relation, listed once, that names the node as its start (fromRels) or
     * end (toRels) and remembers it as such.
     */
    ghost predicate ListsSound()
      reads this`elements, elements.Values`fromRels, elements.Values`toRels
      reads elements.Values`fromNode, elements.Values`toNode
    {
      SoundIn(elements)
    }

    /**
     * The node lists hold exactly the drawn relations: every entry is drawn,
     * and every drawn relation is listed at both of its ends.
     */
    ghost predicate ListsExact()
      reads this`elements, elements.Values`fromRels, elements.Values`toRels
    {
      ExactIn(elements)
    }

    /** After a rebuild a node lists its drawn relations, each once, and they point back at it. */
    lemma LinkedNode(n: Element)
      requires Valid() && Linked() && n in elements.Values && n.isNode
      ensures NodeSound(elements, n) && NodeDrawn(elements, n)
      ensures forall r :: r in n.fromRels || r in n.toRels ==> Visible(elements, r)
    {
      LinkedSide(n, true);
      LinkedSide(n, false);
      DistinctIdsOf(elements, n.fromRels);
      DistinctIdsOf(elements, n.toRels);
    }

    /** One of the two lists of a node after a rebuild: its drawn relations at that end, each once. */
    lemma LinkedSide(n: Element, outgoing: bool)
      requires Valid() && Linked() && n in elements.Values && n.isNode
      ensures var xs := if outgoing then n.fromRels else n.toRels;
        && NoDuplicates(xs)
        && forall r :: r in xs ==>
             && r in elements.Values && !r.isNode && Visible(elements, r)
             && (if outgoing then r.from else r.to) == Some(n.id)
             && (if outgoing then r.fromNode else r.toNode) == n
    {
      ListedFacts();
      SortedRelations(elements, Listed(elements, ids), RelationsOf(Listed(elements, ids)));
      assert relationList[..|relationList|] == relationList;
      LinkedEntries(elements, relationList, n, outgoing);
    }

    /** After a rebuild a drawn relation is listed at both of its ends. */
    lemma LinkedRelation(r: Element)
      requires Valid() && Linked() && r in elements.Values && !r.isNode
      ensures RelationListed(elements, r)
    {
      if Visible(elements, r) {
        LinkedAtStart(r);
        LinkedAtEnd(r);
      }
    }

    /** A drawn relation is in the fromRels of the node it leaves. */
    lemma LinkedAtStart(r: Element)
      requires Valid() && Linked() && r in elements.Values && !r.isNode && Visible(elements, r)
      ensures r in elements[r.from.value].fromRels
    {
      DrawnAtEnds(elements, ids, relationList, r);
    }

    /** A drawn relation is in the toRels of the node it reaches. */
    lemma LinkedAtEnd(r: Element)
      requires Valid() && Linked() && r in elements.Values && !r.isNode && Visible(elements, r)
      ensures r in elements[r.to.value].toRels
    {
      DrawnAtEnds(elements, ids, relationList, r);
    }

    /** A rebuild leaves the node lists sound and exact. */
    lemma LinkedLists()
      requires Valid() && Linked()
      ensures ListsSound() && ListsExact()
    {
      forall n | n in elements.Values && n.isNode ensures NodeSound(elements, n) && NodeDrawn(elements, n) {
        LinkedNode(n);
      }
      forall r | r in elements.Values && !r.isNode ensures RelationListed(elements, r) {
        LinkedRelation(r);
      }
    }

    /** `delete that.elements[id]`: the id leaves the table and the iteration order. */
    method Forget(e: Element)
      requires Valid() && e in elements.Values
      modifies this`elements, this`ids
      ensures Valid()
      ensures elements == old(elements) - {e.id}
      ensures ids == KeysIn(old(ids), elements)
    {
      ValueKey(elements, e);
      KeysInDistinct(ids, elements - {e.id});
      KeysInKeyOrder(ids, elements - {e.id});
      elements := elements - {e.id};
      ids := KeysIn(ids, elements);
    }

    /** `Forget`, when the lists are already sound (exact) without the element. */
    method ForgetKept(e: Element, ghost sound: bool, ghost exact: bool)
      requires Valid() && e in elements.Values
      requires sound ==> SoundIn(elements - {e.id})
      requires exact ==> ExactIn(elements - {e.id})
      modifies this`elements, this`ids
      ensures Valid()
      ensures elements == old(elements) - {e.id}
      ensures ids == KeysIn(old(ids), elements)
      ensures sound ==> ListsSound()
      ensures exact ==> ListsExact()
    {
      ghost var m := elements - {e.id};
      Forget(e);
      KeptLists(m);
    }

    /**
     * The relation branch of `delete`: the relation is spliced out of the
     * lists of the end nodes it remembers, and then forgotten. Sound lists
     * stay sound, and exact lists exact.
     */
    method DropRelation(rel: Element)
      requires Valid() && rel in elements.Values && !rel.isNode
      modifies this`elements, this`ids, Repr`fromRels, Repr`toRels
      ensures Valid()
      ensures elements == old(elements) - {rel.id}
      ensures ids == KeysIn(old(ids), elements)
      ensures rel.fromNode != null ==> rel.fromNode.fromRels == Unlinked(old(rel.fromNode.fromRels), rel.id)
      ensures rel.toNode != null ==> rel.toNode.toRels == Unlinked(old(rel.toNode.toRels), rel.id)
      ensures old(ListsSound()) ==> ListsSound()
      ensures old(ListsSound() && ListsExact()) ==> ListsExact()
    {
      ghost var sound, exact := ListsSound(), ListsSound() && ListsExact();
      SpliceRelation(rel);
      ForgetKept(rel, sound, exact);
    }

    /** The splices of `DropRelation`, before the relation is forgotten. */
    method SpliceRelation(rel: Element)
      requires Valid() && rel in elements.Values && !rel.isNode
      modifies Repr`fromRels, Repr`toRels
      ensures Valid()
      ensures rel.fromNode != null ==> rel.fromNode.fromRels == Unlinked(old(rel.fromNode.fromRels), rel.id)
      ensures rel.toNode != null ==> rel.toNode.toRels == Unlinked(old(rel.toNode.toRels), rel.id)
      ensures old(ListsSound()) ==> SoundIn(elements - {rel.id})
      ensures old(ListsSound() && ListsExact()) ==> ExactIn(elements - {rel.id})
    {
      assert rel.fromNode != null ==> rel.fromNode in Repr;
      assert rel.toNode != null ==> rel.toNode in Repr;
      SpliceEnds(rel, elements);
    }

    /**
     * The nested `delete(relation.id, true, true)` of the node branch: a
     * stored relation is dropped and the chart rebuilt; an id that is gone
     * already, or the id "" that getElement never finds, changes nothing.
     * `spliced` is the node's list (fromRels when `outgoing`, toRels
     * otherwise) as the drop left it, before the rebuild gave the node new
     * arrays.
     */
    method DeleteNested(id: string, node: Element, outgoing: bool) returns (deleted: bool, spliced: seq<Element>)
      requires Valid() && ListsSound()
      requires id in elements ==> !elements[id].isNode
      modifies this`elements, this`ids, this`nodeList, this`relationList
      modifies Repr`fromRels, Repr`toRels, Repr`children, Repr`parents, Repr`siblingsIndex, Repr`visible
      modifies Repr`fromIndex, Repr`toIndex, Repr`fromNode, Repr`toNode
      ensures Valid() && ListsSound()
      ensures deleted <==> id != "" && id in old(elements)
      ensures elements == if deleted then old(elements) - {id} else old(elements)
      ensures ids == KeysIn(old(ids), elements)
      ensures deleted ==> Linked()
      ensures !deleted ==> unchanged(Repr) && spliced == old(if outgoing then node.fromRels else node.toRels)
      ensures !deleted ==> old(Linked()) ==> Linked()
      ensures deleted && outgoing && old(elements[id].fromNode) == node ==> spliced == Unlinked(old(node.fromRels), id)
      ensures deleted && !outgoing && old(elements[id].toNode) == node ==> spliced == Unlinked(old(node.toRels), id)
    {
      spliced := if outgoing then node.fromRels else node.toRels;
      var found := GetElement(Some(id));
      deleted := found.Some?;
      if deleted {
        assert found.value.id == id;
        spliced := DropAndRebuild(found.value, node, outgoing);
      } else {
        KeysInAll(ids, elements);
      }
    }

    /** A nested delete that finds its relation: the relation is dropped, and the chart rebuilt. */
    method DropAndRebuild(rel: Element, node: Element, outgoing: bool) returns (spliced: seq<Element>)
      requires Valid() && ListsSound() && rel in elements.Values && !rel.isNode
      modifies this`elements, this`ids, this`nodeList, this`relationList
      modifies Repr`fromRels, Repr`toRels, Repr`children, Repr`parents, Repr`siblingsIndex, Repr`visible
      modifies Repr`fromIndex, Repr`toIndex, Repr`fromNode, Repr`toNode
      ensures Valid() && Linked() && ListsSound()
      ensures elements == old(elements) - {rel.id} && ids == KeysIn(old(ids), elements)
      ensures outgoing && old(rel.fromNode) == node ==> spliced == Unlinked(old(node.fromRels), rel.id)
      ensures !outgoing && old(rel.toNode) == node ==> spliced == Unlinked(old(node.toRels), rel.id)
    {
      ghost var from, to := rel.fromNode, rel.toNode;
      DropRelation(rel);
      assert rel.fromNode == from && rel.toNode == to;
      spliced := if outgoing then node.fromRels else node.toRels;
      assert outgoing && from == node ==> spliced == Unlinked(old(node.fromRels), rel.id);
      assert !outgoing && to == node ==> spliced == Unlinked(old(node.toRels), rel.id);
      Rebuild();
    }

    /**
     * `element.fromRels.forEach(deleteRelation)` (toRels when `outgoing` is
     * false). forEach fixes the length first and skips indices the array no
     * longer has. Only the first nested delete that finds its relation
     * splices the array the walk goes over (`arr` follows the node's list
     * while `live`); its rebuild gives the node a new array. The relations
     * deleted are the findable `Visits` of the list.
     */
    method DeleteLinkedAsWritten(node: Element, outgoing: bool)
      requires Valid() && ListsSound() && node in elements.Values && node.isNode
      modifies this`elements, this`ids, this`nodeList, this`relationList
      modifies Repr`fromRels, Repr`toRels, Repr`children, Repr`parents, Repr`siblingsIndex, Repr`visible
      modifies Repr`fromIndex, Repr`toIndex, Repr`fromNode, Repr`toNode
      ensures Valid() && ListsSound() && node in elements.Values
      ensures elements == old(elements) - Findable(Visits(old(if outgoing then node.fromRels else node.toRels)))
      ensures ids == KeysIn(old(ids), elements)
    {
      var arr := if outgoing then node.fromRels else node.toRels;
      ghost var xs := arr;
      ghost var m0 := elements;
      assert NodeSound(elements, node);
      WalkEntries(elements, node, node.fromRels, node.toRels, outgoing);
      KeysInAll(ids, elements);
      var rest, live := Walk(node, outgoing, xs, m0, old(ids), arr);
      WalkDone(node, outgoing, xs, m0, old(ids), rest, live);
    }

    /** The forEach loop itself, from the first index to the captured length. */
    method Walk(node: Element, outgoing: bool, ghost xs: seq<Element>, ghost m0: map<string, Element>,
                ghost ids0: seq<string>, arr0: seq<Element>)
      returns (arr: seq<Element>, live: bool)
      requires Walking(node, outgoing, xs, m0, ids0, arr0, 0, true)
      requires WalkList(node, xs, m0)
      modifies this`elements, this`ids, this`nodeList, this`relationList
      modifies Repr`fromRels, Repr`toRels, Repr`children, Repr`parents, Repr`siblingsIndex, Repr`visible
      modifies Repr`fromIndex, Repr`toIndex, Repr`fromNode, Repr`toNode
      ensures Walking(node, outgoing, xs, m0, ids0, arr, |xs|, live)
    {
      arr := arr0;
      var len := |arr|;
      live := true;
      var i := 0;
      while i < len
        invariant i <= len == |xs|
        invariant Walking(node, outgoing, xs, m0, ids0, arr, i, live)
      {
        arr, live := WalkStep(node, outgoing, xs, m0, ids0, arr, i, live);
        i := i + 1;
      }
    }

    /** The relations a walk visits: registered, none of them a node, none of them `node`, ids distinct. */
    ghost predicate WalkList(node: Element, xs: seq<Element>, m0: map<string, Element>)
      reads xs
    {
      && DistinctIds(xs)
      && forall r :: r in xs ==> r.id in m0 && m0[r.id] == r && !r.isNode && r.id != node.id
    }

    /** The walk over the whole captured length. */
    lemma WalkDone(node: Element, outgoing: bool, xs: seq<Element>, m0: map<string, Element>, ids0: seq<string>,
                 arr: seq<Element>, live: bool)
      requires Walking(node, outgoing, xs, m0, ids0, arr, |xs|, live)
      ensures Valid() && ListsSound() && node in elements.Values
      ensures elements == m0 - Findable(Visits(xs)) && ids == KeysIn(ids0, elements)
    {
      VisitedAll(xs);
    }

    /**
     * The state of the walk after `i` steps: either no nested delete has
     * found its relation yet and the walk still follows the node's own
     * array, or the first one that did (at `Lead(xs)`) has rebuilt the chart
     * and the walk goes on over the array that delete left behind.
     */
    ghost predicate Walking(node: Element, outgoing: bool, xs: seq<Element>, m0: map<string, Element>, ids0: seq<string>,
                            arr: seq<Element>, i: nat, live: bool)
      reads this, Repr
    {
      && Walked(node, xs, m0, ids0, i)
      && (live ==>
            && i <= Lead(xs) && arr == xs && elements == m0
            && (if outgoing then node.fromRels else node.toRels) == xs
            && (Lead(xs) < |xs| ==> var r := xs[Lead(xs)]; r in Repr && (if outgoing then r.fromNode else r.toNode) == node))
      && (!live ==> Lead(xs) < i && arr == Spliced(xs))
    }

    /** What holds at every step of the walk: the first `i` visits are deleted. */
    ghost predicate Walked(node: Element, xs: seq<Element>, m0: map<string, Element>, ids0: seq<string>, i: nat)
      reads this, Repr
    {
      && i <= |xs|
      && Valid() && ListsSound() && node.id in elements && elements[node.id] == node
      && elements == m0 - VisitedIds(xs, i)
      && ids == KeysIn(ids0, elements)
    }

    /** One step of the walk: the callback on `arr[i]`, when the array still has index `i`. */
    method WalkStep(node: Element, outgoing: bool, ghost xs: seq<Element>, ghost m0: map<string, Element>,
                    ghost ids0: seq<string>, arr: seq<Element>, i: nat, live: bool)
      returns (arr': seq<Element>, live': bool)
      requires i < |xs| && Walking(node, outgoing, xs, m0, ids0, arr, i, live)
      requires WalkList(node, xs, m0)
      modifies this`elements, this`ids, this`nodeList, this`relationList
      modifies Repr`fromRels, Repr`toRels, Repr`children, Repr`parents, Repr`siblingsIndex, Repr`visible
      modifies Repr`fromIndex, Repr`toIndex, Repr`fromNode, Repr`toNode
      ensures Walking(node, outgoing, xs, m0, ids0, arr', i + 1, live')
    {
      arr', live' := arr, live;
      if i >= |arr| {
        VisitedPast(xs, arr, i);
      } else if !live {
        WalkOn(node, outgoing, xs, m0, ids0, arr, i);
      } else if i < Lead(arr) {
        WalkPast(node, outgoing, xs, m0, ids0, arr, i);
      } else {
        arr' := WalkFound(node, outgoing, xs, m0, ids0, arr, i);
        live' := false;
      }
    }

    /**
     * A step before the first findable entry: the relation stored under ""
     * is not found by the nested delete, which changes nothing.
     */
    method WalkPast(node: Element, outgoing: bool, ghost xs: seq<Element>, ghost m0: map<string, Element>,
                    ghost ids0: seq<string>, arr: seq<Element>, i: nat)
      requires i < Lead(xs) && Walking(node, outgoing, xs, m0, ids0, arr, i, true)
      requires WalkList(node, xs, m0)
      modifies this`elements, this`ids, this`nodeList, this`relationList
      modifies Repr`fromRels, Repr`toRels, Repr`children, Repr`parents, Repr`siblingsIndex, Repr`visible
      modifies Repr`fromIndex, Repr`toIndex, Repr`fromNode, Repr`toNode
      ensures Walking(node, outgoing, xs, m0, ids0, arr, i + 1, true)
    {
      var rel := arr[i];
      VisitedStep(xs, arr, i);
      assert rel.id == "" && VisitedIds(xs, i + 1) == VisitedIds(xs, i);
      assert node in elements.Values && node in Repr;
      ghost var before := elements;
      var deleted, spliced := DeleteNested(rel.id, node, outgoing);
      assert !deleted && elements == before;
      assert (if outgoing then node.fromRels else node.toRels) == xs;
      assert Lead(xs) < |xs| ==> var r := xs[Lead(xs)]; r in Repr && (if outgoing then r.fromNode else r.toNode) == node;
      KeysInTwice(ids0, before, elements);
    }

    /**
     * The step at the first findable entry: the nested delete drops it,
     * splices it out of the array the walk goes over, and rebuilds the chart.
     */
    method WalkFound(node: Element, outgoing: bool, ghost xs: seq<Element>, ghost m0: map<string, Element>,
                     ghost ids0: seq<string>, arr: seq<Element>, i: nat)
      returns (arr': seq<Element>)
      requires i == Lead(xs) < |xs| && Walking(node, outgoing, xs, m0, ids0, arr, i, true)
      requires WalkList(node, xs, m0)
      modifies this`elements, this`ids, this`nodeList, this`relationList
      modifies Repr`fromRels, Repr`toRels, Repr`children, Repr`parents, Repr`siblingsIndex, Repr`visible
      modifies Repr`fromIndex, Repr`toIndex, Repr`fromNode, Repr`toNode
      ensures Walking(node, outgoing, xs, m0, ids0, arr', i + 1, false)
    {
      var rel := arr[i];
      VisitedStep(xs, arr, i);
      LeadFound(xs);
      assert rel.id in elements && elements[rel.id] == rel;
      ghost var before := elements;
      var deleted, spliced := DeleteNested(rel.id, node, outgoing);
      arr' := spliced;
      MinusFound(m0, VisitedIds(xs, i), rel.id, deleted, elements);
      KeysInTwice(ids0, before, elements);
    }

    /** A step after the first nested delete: the walk reads the array that delete left behind. */
    method WalkOn(node: Element, outgoing: bool, ghost xs: seq<Element>, ghost m0: map<string, Element>,
                  ghost ids0: seq<string>, arr: seq<Element>, i: nat)
      requires i < |arr| && Walking(node, outgoing, xs, m0, ids0, arr, i, false)
      requires WalkList(node, xs, m0)
      modifies this`elements, this`ids, this`nodeList, this`relationList
      modifies Repr`fromRels, Repr`toRels, Repr`children, Repr`parents, Repr`siblingsIndex, Repr`visible
      modifies Repr`fromIndex, Repr`toIndex, Repr`fromNode, Repr`toNode
      ensures Walking(node, outgoing, xs, m0, ids0, arr, i + 1, false)
    {
      ghost var before := elements;
      var rel := arr[i];
      VisitedStep(xs, arr, i);
      assert rel.id in m0 && m0[rel.id] == rel && !rel.isNode && rel.id != node.id;
      var deleted, spliced := DeleteNested(rel.id, node, outgoing);
      MinusFound(m0, VisitedIds(xs, i), rel.id, deleted, elements);
      KeysInTwice(ids0, before, elements);
    }

    /**
     * `delete that.elements[id]` for a node. The lists of the other nodes
     * stay sound; they stay exact when no drawn relation names the node.
     */
    method ForgetNode(node: Element)
      requires Valid() && ListsSound() && node in elements.Values && node.isNode
      modifies this`elements, this`ids
      ensures Valid() && ListsSound()
      ensures elements == old(elements) - {node.id}
      ensures ids == KeysIn(old(ids), elements)
      ensures old(ListsExact()) && Untouched(old(elements), node.id) ==> ListsExact()
    {
      ValueKey(elements, node);
      ForgotSound(elements, node.id);
      ghost var exact := ListsExact() && Untouched(elements, node.id);
      if exact {
        ForgotExact(elements, node.id);
      }
      ForgetKept(node, true, exact);
    }

    /**
     * The relation the cascade of `delete(id)` passes over: the entry of the
     * node's fromRels just after the first one a nested delete finds (the
     * second entry, or the third behind a relation stored under ""),
     * unless it also ends at the node (the toRels walk then reaches it).
     */
    ghost function Skipped(id: string): (s: Option<Element>)
      requires Valid()
      reads this, Repr
      ensures s.Some? ==> id in elements && elements[id].isNode && s.value in elements[id].fromRels
    {
      if id != "" && id in elements && elements[id].isNode then
        var xs := elements[id].fromRels;
        if |xs| > Lead(xs) + 1 && xs[Lead(xs) + 1].to != Some(id) then Some(xs[Lead(xs) + 1]) else None
      else None
    }

    /**
     * The node branch of `delete`, as written: the cascade over the node's
     * fromRels, then over its toRels, then the node is forgotten. The
     * second entry of fromRels survives unless it also ends at the node.
     */
    method DeleteNodeAsWritten(node: Element)
      requires Valid() && ListsSound() && node in elements.Values && node.isNode
      modifies this`elements, this`ids, this`nodeList, this`relationList
      modifies Repr`fromRels, Repr`toRels, Repr`children, Repr`parents, Repr`siblingsIndex, Repr`visible
      modifies Repr`fromIndex, Repr`toIndex, Repr`fromNode, Repr`toNode
      ensures Valid() && ListsSound()
      ensures node.id !in elements && SubMap(elements, old(elements))
      ensures ids == KeysIn(old(ids), elements)
      ensures Findable(Visits(old(node.fromRels))) !! elements.Keys
      ensures RemovedOnly(old(elements), elements, node.id)
      ensures forall j :: j in old(elements) && j !in elements && j != node.id && old(elements)[j].to != Some(node.id) ==>
        j in Findable(Visits(old(node.fromRels)))
      ensures var xs, k := old(node.fromRels), Lead(old(node.fromRels)) + 1;
        |xs| > k && xs[k].to != Some(node.id) ==> xs[k].id in elements
    {
      ghost var m0 := elements;
      assert NodeSound(elements, node);
      WalkNames(elements, node, true);
      ghost var v1 := Findable(Visits(node.fromRels));
      var xs := node.fromRels;
      var k := Lead(xs) + 1;
      assert NodeSound(elements, node);
      VisitsSkipNext(xs);
      var skipped := |xs| > k && xs[k].to != Some(node.id);
      if skipped {
        ValueKey(elements, xs[k]);
      }
      DeleteLinkedAsWritten(node, true);
      ghost var m1 := elements;
      assert NodeSound(elements, node);
      WalkNames(elements, node, false);
      ghost var v2 := Findable(Visits(node.toRels));
      if skipped {
        assert m1[xs[k].id] == xs[k];
        assert NodeSound(elements, node);
        NotVisited(elements, node.toRels, xs[k], node.id);
      }
      DeleteLinkedAsWritten(node, false);
      KeysInTwice(old(ids), m1, elements);
      ghost var m2 := elements;
      if skipped {
        assert m2[xs[k].id] == xs[k] && xs[k].id != node.id;
      }
      ForgetNode(node);
      KeysInTwice(old(ids), m2, elements);
      SubMapMinus(old(elements), m1, m2, elements);
      WalksRemoved(m0, m1, m2, elements, node.id, v1, v2);
    }

    /**
     * The callback of `$.each(idList, ...)` in `delete`, as written: a node
     * takes the node branch, a relation is dropped. The relation
     * `Skipped(id)` names survives.
     */
    method DeleteOneAsWritten(id: string) returns (found: Option<Element>)
      requires Valid() && ListsSound()
      modifies this`elements, this`ids, this`nodeList, this`relationList
      modifies Repr`fromRels, Repr`toRels, Repr`children, Repr`parents, Repr`siblingsIndex, Repr`visible
      modifies Repr`fromIndex, Repr`toIndex, Repr`fromNode, Repr`toNode
      ensures Valid() && ListsSound()
      ensures found.Some? <==> id != "" && id in old(elements)
      ensures found.Some? ==> found.value == old(elements[id])
      ensures (id != "" ==> id !in elements) && SubMap(elements, old(elements))
      ensures ids == KeysIn(old(ids), elements)
      ensures found.None? ==> elements == old(elements) && (old(Linked()) ==> Linked())
      ensures found.Some? && !found.value.isNode ==> elements == old(elements) - {id}
      ensures RemovedOnly(old(elements), elements, id)
      ensures old(Skipped(id)).Some? ==> old(Skipped(id)).value.id in elements
    {
      found := GetElement(Some(id));
      if found.Some? {
        var e := found.value;
        assert e.id == id;
        if e.isNode {
          DeleteNodeAsWritten(e);
        } else {
          DropRelation(e);
        }
      } else {
        KeysInAll(ids, elements);
      }
    }

    /**
     * `delete(idList)`, as written: each id in turn, then one rebuild when
     * anything was deleted; `deleted` is the list handed to onDeleteElement.
     * Deleting a lone node whose second outgoing relation does not end at
     * the node leaves that relation stored with its start gone: drawn
     * before, no longer drawn after.
     */
    method DeleteAsWritten(idList: seq<string>) returns (deleted: seq<Element>)
      requires Valid() && Linked()
      modifies this`elements, this`ids, this`nodeList, this`relationList
      modifies Repr`fromRels, Repr`toRels, Repr`children, Repr`parents, Repr`siblingsIndex, Repr`visible
      modifies Repr`fromIndex, Repr`toIndex, Repr`fromNode, Repr`toNode
      ensures Valid() && Linked()
      ensures SubMap(elements, old(elements)) && forall k :: k in idList && k != "" ==> k !in elements
      ensures ids == KeysIn(old(ids), elements)
      ensures deleted == [] <==> forall k :: k in idList ==> k == "" || k !in old(elements)
      ensures forall e :: e in deleted ==> e.id in idList && e.id in old(elements) && old(elements)[e.id] == e
      ensures deleted == [] ==> elements == old(elements)
      ensures forall j :: j in old(elements) && j !in elements ==> j in idList || NamesAny(old(elements)[j], idList)
      ensures forall k :: k in idList && k != "" && k in old(elements) && !NamesAny(old(elements)[k], idList) ==>
        old(elements)[k] in deleted
      ensures |idList| == 1 && old(Skipped(idList[0])).Some? ==>
        var s := old(Skipped(idList[0])).value;
        s in elements.Values && Visible(old(elements), s) && !Visible(elements, s)
    {
      ghost var m0 := elements;
      ghost var s := if |idList| == 1 then Skipped(idList[0]) else None;
      if s.Some? {
        LinkedNode(elements[idList[0]]);
        ValueKey(m0, s.value);
        assert Visible(m0, s.value) && s.value.from == Some(idList[0]);
      }
      LinkedLists();
      deleted := DeleteEachAsWritten(idList);
      ProgressDone(idList, m0, elements, deleted);
      if deleted != [] {
        Rebuild();
      }
      if s.Some? {
        Stranded(m0, elements, s.value, idList[0]);
      }
    }

    /** `$.each(idList, ...)` of `delete`, as written. */
    method DeleteEachAsWritten(idList: seq<string>) returns (deleted: seq<Element>)
      requires Valid() && Linked() && ListsSound()
      modifies this`elements, this`ids, this`nodeList, this`relationList
      modifies Repr`fromRels, Repr`toRels, Repr`children, Repr`parents, Repr`siblingsIndex, Repr`visible
      modifies Repr`fromIndex, Repr`toIndex, Repr`fromNode, Repr`toNode
      ensures Deleting(idList, old(elements), old(ids), deleted, |idList|, false)
      ensures |idList| == 1 && old(Skipped(idList[0])).Some? ==> old(Skipped(idList[0])).value.id in elements
    {
      ghost var s := if |idList| == 1 then Skipped(idList[0]) else None;
      KeysInAll(ids, elements);
      deleted := [];
      var i := 0;
      while i < |idList|
        invariant Deleting(idList, old(elements), old(ids), deleted, i, false)
        invariant i == 0 ==> s == if |idList| == 1 then Skipped(idList[0]) else None
        invariant i == 1 && s.Some? ==> s.value.id in elements
      {
        deleted := DeleteStepAsWritten(idList, old(elements), old(ids), deleted, i);
        i := i + 1;
      }
    }

    /**
     * The state of `delete(idList)` after the first `i` ids: what was
     * deleted, and the lists sound (exact too in the intended version).
     */
    ghost predicate Deleting(idList: seq<string>, m0: map<string, Element>, ids0: seq<string>, deleted: seq<Element>,
                             i: nat, exact: bool)
      reads this, Repr
    {
      && Valid() && ListsSound()
      && Progress(idList, m0, elements, deleted, i)
      && ids == KeysIn(ids0, elements)
      && (deleted == [] ==> Linked())
      && (exact ==> ListsExact() && DrawnKept(m0, elements))
    }

    /** One id of `delete(idList)`, as written. */
    method DeleteStepAsWritten(idList: seq<string>, ghost m0: map<string, Element>, ghost ids0: seq<string>,
                               deleted: seq<Element>, i: nat)
      returns (deleted': seq<Element>)
      requires i < |idList| && Deleting(idList, m0, ids0, deleted, i, false)
      modifies this`elements, this`ids, this`nodeList, this`relationList
      modifies Repr`fromRels, Repr`toRels, Repr`children, Repr`parents, Repr`siblingsIndex, Repr`visible
      modifies Repr`fromIndex, Repr`toIndex, Repr`fromNode, Repr`toNode
      ensures Deleting(idList, m0, ids0, deleted', i + 1, false)
      ensures old(Skipped(idList[i])).Some? ==> old(Skipped(idList[i])).value.id in elements
    {
      ghost var before := elements;
      var found := DeleteOneAsWritten(idList[i]);
      deleted' := if found.Some? then deleted + [found.value] else deleted;
      KeysInTwice(ids0, before, elements);
      ProgressStep(idList, m0, before, elements, deleted, i, found);
    }

    /**
     * The walk of the node branch as evidently intended: over a copy of the
     * node's list (fromRels when `outgoing`, toRels otherwise), so that every
     * entry gets its nested delete. Afterwards no drawn relation starts (or
     * ends) at the node, and every other drawn relation is still drawn.
     */
    method DeleteLinked(node: Element, outgoing: bool)
      requires Valid() && ListsSound() && ListsExact() && node in elements.Values && node.isNode
      modifies this`elements, this`ids, this`nodeList, this`relationList
      modifies Repr`fromRels, Repr`toRels, Repr`children, Repr`parents, Repr`siblingsIndex, Repr`visible
      modifies Repr`fromIndex, Repr`toIndex, Repr`fromNode, Repr`toNode
      ensures Valid() && ListsSound() && ListsExact() && node in elements.Values
      ensures elements == old(elements) - Findable(old(if outgoing then node.fromRels else node.toRels))
      ensures ids == KeysIn(old(ids), elements)
      ensures DrawnKept(old(elements), elements) && NoneDrawnAt(elements, node.id, outgoing)
    {
      var rels := if outgoing then node.fromRels else node.toRels;
      ghost var m0 := elements;
      assert NodeSound(elements, node);
      assert DistinctIds(rels);
      WalkEntries(elements, node, node.fromRels, node.toRels, outgoing);
      ListedAt(elements, node, outgoing);
      KeysInAll(ids, elements);
      CopyWalk(node, outgoing, rels, m0, old(ids));
      WalkedAway(m0, elements, rels, node.id, outgoing);
      RelationIds(m0, rels);
      DrawnKeptRelations(m0, Findable(rels));
    }

    /** The walk over the copy after `i` entries. */
    ghost predicate Copying(node: Element, rels: seq<Element>, m0: map<string, Element>, ids0: seq<string>, i: nat)
      reads this, Repr
    {
      && i <= |rels|
      && Valid() && ListsSound() && ListsExact()
      && node.id in elements && elements[node.id] == node
      && elements == m0 - Findable(rels[..i])
      && ids == KeysIn(ids0, elements)
    }

    /** `rels.forEach(deleteRelation)` over the copy. */
    method CopyWalk(node: Element, outgoing: bool, rels: seq<Element>, ghost m0: map<string, Element>, ghost ids0: seq<string>)
      requires Copying(node, rels, m0, ids0, 0) && DistinctIds(rels)
      requires forall r :: r in rels ==> r.id in m0 && m0[r.id] == r && !r.isNode && r.id != node.id
      modifies this`elements, this`ids, this`nodeList, this`relationList
      modifies Repr`fromRels, Repr`toRels, Repr`children, Repr`parents, Repr`siblingsIndex, Repr`visible
      modifies Repr`fromIndex, Repr`toIndex, Repr`fromNode, Repr`toNode
      ensures Valid() && ListsSound() && ListsExact() && node in elements.Values
      ensures elements == m0 - Findable(rels) && ids == KeysIn(ids0, elements)
    {
      var i := 0;
      while i < |rels|
        invariant Copying(node, rels, m0, ids0, i)
      {
        CopyWalkStep(node, outgoing, rels, m0, ids0, i);
        i := i + 1;
      }
      assert rels[..|rels|] == rels;
    }

    /** The nested delete of `rels[i]`; the entry is still stored, so it is deleted and the chart rebuilt. */
    method CopyWalkStep(node: Element, outgoing: bool, rels: seq<Element>, ghost m0: map<string, Element>,
                        ghost ids0: seq<string>, i: nat)
      requires i < |rels| && Copying(node, rels, m0, ids0, i) && DistinctIds(rels)
      requires forall r :: r in rels ==> r.id in m0 && m0[r.id] == r && !r.isNode && r.id != node.id
      modifies this`elements, this`ids, this`nodeList, this`relationList
      modifies Repr`fromRels, Repr`toRels, Repr`children, Repr`parents, Repr`siblingsIndex, Repr`visible
      modifies Repr`fromIndex, Repr`toIndex, Repr`fromNode, Repr`toNode
      ensures Copying(node, rels, m0, ids0, i + 1)
    {
      ghost var before := elements;
      CopyStep(m0, rels, i);
      var deleted, spliced := DeleteNested(rels[i].id, node, outgoing);
      if deleted {
        LinkedLists();
      }
      MinusFound(m0, Findable(rels[..i]), rels[i].id, deleted, elements);
      KeysInTwice(ids0, before, elements);
    }

    /**
     * The node branch of `delete` as evidently intended: both walks over
     * copies, then the node is forgotten. Exactly the node and the findable
     * relations of its two lists leave the table, and every drawn relation
     * that survives is still drawn.
     */
    method DeleteNode(node: Element)
      requires Valid() && ListsSound() && ListsExact() && node in elements.Values && node.isNode
      modifies this`elements, this`ids, this`nodeList, this`relationList
      modifies Repr`fromRels, Repr`toRels, Repr`children, Repr`parents, Repr`siblingsIndex, Repr`visible
      modifies Repr`fromIndex, Repr`toIndex, Repr`fromNode, Repr`toNode
      ensures Valid() && ListsSound() && ListsExact()
      ensures elements == old(elements) - ({node.id} + Findable(old(node.fromRels)) + Findable(old(node.toRels)))
      ensures node.id !in elements && SubMap(elements, old(elements))
      ensures ids == KeysIn(old(ids), elements)
      ensures DrawnKept(old(elements), elements)
    {
      ghost var f0, t0 := node.fromRels, node.toRels;
      DeleteBothLinked(node);
      ghost var m2 := elements;
      ForgotDrawnKept(m2, node.id);
      ForgetNode(node);
      KeysInTwice(old(ids), m2, elements);
      DrawnKeptTrans(old(elements), m2, elements);
      MinusThen(old(elements), Findable(f0), Findable(t0), node.id);
    }

    /**
     * The two walks of the node branch, over copies: the findable relations
     * of both lists leave the table, and no drawn relation is left at the node.
     */
    method DeleteBothLinked(node: Element)
      requires Valid() && ListsSound() && ListsExact() && node in elements.Values && node.isNode
      modifies this`elements, this`ids, this`nodeList, this`relationList
      modifies Repr`fromRels, Repr`toRels, Repr`children, Repr`parents, Repr`siblingsIndex, Repr`visible
      modifies Repr`fromIndex, Repr`toIndex, Repr`fromNode, Repr`toNode
      ensures Valid() && ListsSound() && ListsExact() && node in elements.Values
      ensures elements == old(elements) - (Findable(old(node.fromRels)) + Findable(old(node.toRels)))
      ensures ids == KeysIn(old(ids), elements)
      ensures DrawnKept(old(elements), elements) && Untouched(elements, node.id)
    {
      ghost var m0, f0, t0 := elements, node.fromRels, node.toRels;
      ArrivingExact(elements, node);
      DeleteLinked(node, true);
      ghost var m1, t1 := elements, node.toRels;
      ArrivingExact(elements, node);
      SecondPass(m0, m1, f0, t0, t1, node.id);
      DeleteLinked(node, false);
      KeysInTwice(old(ids), m1, elements);
      NoneDrawnKept(m1, elements, node.id, true);
      DrawnKeptTrans(old(elements), m1, elements);
    }

    /** The callback of `$.each(idList, ...)` in `delete` as evidently intended. */
    method DeleteOne(id: string) returns (found: Option<Element>)
      requires Valid() && ListsSound() && ListsExact()
      modifies this`elements, this`ids, this`nodeList, this`relationList
      modifies Repr`fromRels, Repr`toRels, Repr`children, Repr`parents, Repr`siblingsIndex, Repr`visible
      modifies Repr`fromIndex, Repr`toIndex, Repr`fromNode, Repr`toNode
      ensures Valid() && ListsSound() && ListsExact()
      ensures found.Some? <==> id != "" && id in old(elements)
      ensures found.Some? ==> found.value == old(elements[id])
      ensures (id != "" ==> id !in elements) && SubMap(elements, old(elements))
      ensures ids == KeysIn(old(ids), elements)
      ensures DrawnKept(old(elements), elements)
      ensures found.None? ==> elements == old(elements) && (old(Linked()) ==> Linked())
      ensures elements == old(elements) - old(Cascade(elements, id))
      ensures RemovedOnly(old(elements), elements, id)
    {
      CascadeNames(elements, id);
      ghost var m0, c := elements, Cascade(elements, id);
      found := GetElement(Some(id));
      if found.Some? {
        DeleteFound(found.value);
      } else {
        KeysInAll(ids, elements);
      }
      CascadeRemoved(m0, elements, id, c);
    }

    /** The element getElement found (never under ""): a node takes the node branch, a relation is dropped. */
    method DeleteFound(e: Element)
      requires Valid() && ListsSound() && ListsExact() && e in elements.Values && e.id != ""
      modifies this`elements, this`ids, this`nodeList, this`relationList
      modifies Repr`fromRels, Repr`toRels, Repr`children, Repr`parents, Repr`siblingsIndex, Repr`visible
      modifies Repr`fromIndex, Repr`toIndex, Repr`fromNode, Repr`toNode
      ensures Valid() && ListsSound() && ListsExact()
      ensures elements == old(elements) - old(Cascade(elements, e.id))
      ensures ids == KeysIn(old(ids), elements)
      ensures DrawnKept(old(elements), elements)
    {
      ValueKey(elements, e);
      if e.isNode {
        DeleteNode(e);
      } else {
        RelationIds(elements, [e]);
        DrawnKeptRelations(elements, IdsOf([e]));
        DropRelation(e);
      }
    }

    /**
     * `delete(idList)` as evidently intended: every listed id leaves the
     * chart, the chart is rebuilt when anything was deleted, and every
     * stored relation that was drawn before is still drawn.
     */
    method Delete(idList: seq<string>) returns (deleted: seq<Element>)
      requires Valid() && Linked()
      modifies this`elements, this`ids, this`nodeList, this`relationList
      modifies Repr`fromRels, Repr`toRels, Repr`children, Repr`parents, Repr`siblingsIndex, Repr`visible
      modifies Repr`fromIndex, Repr`toIndex, Repr`fromNode, Repr`toNode
      ensures Valid() && Linked()
      ensures SubMap(elements, old(elements)) && forall k :: k in idList && k != "" ==> k !in elements
      ensures ids == KeysIn(old(ids), elements)
      ensures deleted == [] <==> forall k :: k in idList ==> k == "" || k !in old(elements)
      ensures forall e :: e in deleted ==> e.id in idList && e.id in old(elements) && old(elements)[e.id] == e
      ensures deleted == [] ==> elements == old(elements)
      ensures forall j :: j in old(elements) && j !in elements ==> j in idList || NamesAny(old(elements)[j], idList)
      ensures forall k :: k in idList && k != "" && k in old(elements) && !NamesAny(old(elements)[k], idList) ==>
        old(elements)[k] in deleted
      ensures DrawnKept(old(elements), elements)
    {
      ghost var m0 := elements;
      LinkedLists();
      deleted := DeleteEach(idList);
      ProgressDone(idList, m0, elements, deleted);
      if deleted != [] {
        Rebuild();
      }
    }

    /** `$.each(idList, ...)` of `delete` as evidently intended. */
    method DeleteEach(idList: seq<string>) returns (deleted: seq<Element>)
      requires Valid() && Linked() && ListsSound() && ListsExact()
      modifies this`elements, this`ids, this`nodeList, this`relationList
      modifies Repr`fromRels, Repr`toRels, Repr`children, Repr`parents, Repr`siblingsIndex, Repr`visible
      modifies Repr`fromIndex, Repr`toIndex, Repr`fromNode, Repr`toNode
      ensures Deleting(idList, old(elements), old(ids), deleted, |idList|, true)
    {
      KeysInAll(ids, elements);
      deleted := [];
      var i := 0;
      while i < |idList|
        invariant Deleting(idList, old(elements), old(ids), deleted, i, true)
      {
        deleted := DeleteStep(idList, old(elements), old(ids), deleted, i);
        i := i + 1;
      }
    }

    /** One id of `delete(idList)` as evidently intended. */
    method DeleteStep(idList: seq<string>, ghost m0: map<string, Element>, ghost ids0: seq<string>,
                      deleted: seq<Element>, i: nat)
      returns (deleted': seq<Element>)
      requires i < |idList| && Deleting(idList, m0, ids0, deleted, i, true)
      modifies this`elements, this`ids, this`nodeList, this`relationList
      modifies Repr`fromRels, Repr`toRels, Repr`children, Repr`parents, Repr`siblingsIndex, Repr`visible
      modifies Repr`fromIndex, Repr`toIndex, Repr`fromNode, Repr`toNode
      ensures Deleting(idList, m0, ids0, deleted', i + 1, true)
    {
      ghost var before := elements;
      var found := DeleteOne(idList[i]);
      deleted' := if found.Some? then deleted + [found.value] else deleted;
      KeysInTwice(ids0, before, elements);
      ProgressStep(idList, m0, before, elements, deleted, i, found);
      DrawnKeptTrans(m0, before, elements);
    }
  }

  /** `rs.forEach(rel => map[rel.id] = rel)`. */
  method AddEach(pm: map<string, Element>, rs: seq<Element>) returns (r: map<string, Element>)
    ensures r == pm + ById(rs)
  {
    r := pm;
    var k := 0;
    while k < |rs|
      invariant 0 <= k <= |rs|
      invariant r == pm + ById(rs[..k])
    {
      assert rs[..k + 1][..k] == rs[..k];
      r := r[rs[k].id := rs[k]];
      k := k + 1;
    }
    assert rs[..k] == rs;
  }

  // ---------------------------------------------------------------------
  // delete: what the node lists go through
  // ---------------------------------------------------------------------

  /** No two entries share an id. */
  ghost predicate DistinctIds(rs: seq<Element>)
  {
    forall a, b :: 0 <= a < b < |rs| ==> rs[a].id != rs[b].id
  }

  /** The entries of a list without repeats, taken from an id-keyed table, have distinct ids. */
  lemma DistinctIdsOf(m: map<string, Element>, rs: seq<Element>)
    requires IdKeyed(m) && NoDuplicates(rs) && forall r :: r in rs ==> r in m.Values
    ensures DistinctIds(rs)
  {
    forall a, b | 0 <= a < b < |rs| ensures rs[a].id != rs[b].id {
      ValueKey(m, rs[a]);
      ValueKey(m, rs[b]);
    }
  }

  /** The ids of `rs`. */
  function IdsOf(rs: seq<Element>): set<string>
  {
    if rs == [] then {} else IdsOf(rs[..|rs| - 1]) + {rs[|rs| - 1].id}
  }

  /** The ids of `rs` that getElement can find: all but "". */
  function Findable(rs: seq<Element>): set<string>
  {
    IdsOf(rs) - {""}
  }

  lemma {:induction false} IdsOfMembers(rs: seq<Element>, k: string)
    ensures k in IdsOf(rs) <==> exists r :: r in rs && r.id == k
  {
    if rs != [] {
      var init := rs[..|rs| - 1];
      IdsOfMembers(init, k);
      assert rs == init + [rs[|rs| - 1]];
    }
  }

  lemma IdsOfSnoc(rs: seq<Element>, r: Element)
    ensures IdsOf(rs + [r]) == IdsOf(rs) + {r.id}
  {
    assert (rs + [r])[..|rs|] == rs;
  }

  /**
   * What a node's lists promise between rebuilds, for lists `from` and `to`:
   * stored relations, listed once, that name and remember the node.
   */
  ghost predicate EntriesSound(m: map<string, Element>, n: Element, from: seq<Element>, to: seq<Element>)
    reads m.Values`fromNode, m.Values`toNode
  {
    && DistinctIds(from) && DistinctIds(to)
    && (forall r :: r in from ==> r in m.Values && !r.isNode && r.from == Some(n.id) && r.fromNode == n)
    && (forall r :: r in to ==> r in m.Values && !r.isNode && r.to == Some(n.id) && r.toNode == n)
  }

  ghost predicate NodeSound(m: map<string, Element>, n: Element)
    reads n`fromRels, n`toRels, m.Values`fromNode, m.Values`toNode
  {
    EntriesSound(m, n, n.fromRels, n.toRels)
  }

  /**
   * Every entry of the lists is drawn, except perhaps one stored under ""
   * (no delete can find it, so it can outlive its ends).
   */
  ghost predicate EntriesDrawn(m: map<string, Element>, from: seq<Element>, to: seq<Element>)
  {
    (forall r :: r in from && r.id != "" ==> Visible(m, r)) && (forall r :: r in to && r.id != "" ==> Visible(m, r))
  }

  ghost predicate NodeDrawn(m: map<string, Element>, n: Element)
    reads n`fromRels, n`toRels
  {
    EntriesDrawn(m, n.fromRels, n.toRels)
  }

  /** A drawn relation is listed at both of its ends. */
  ghost predicate RelationListed(m: map<string, Element>, r: Element)
    reads m.Values`fromRels, m.Values`toRels
  {
    Visible(m, r) ==> r in m[r.from.value].fromRels && r in m[r.to.value].toRels
  }

  /** Every node's lists in `m` are sound. */
  ghost predicate SoundIn(m: map<string, Element>)
    reads m.Values`fromRels, m.Values`toRels, m.Values`fromNode, m.Values`toNode
  {
    forall n {:trigger NodeSound(m, n)} :: n in m.Values && n.isNode ==> NodeSound(m, n)
  }

  /** Every node's lists in `m` hold only drawn relations, and every drawn relation is listed at its ends. */
  ghost predicate ExactIn(m: map<string, Element>)
    reads m.Values`fromRels, m.Values`toRels
  {
    && (forall n {:trigger NodeDrawn(m, n)} :: n in m.Values && n.isNode ==> NodeDrawn(m, n))
    && (forall r {:trigger RelationListed(m, r)} :: r in m.Values && !r.isNode ==> RelationListed(m, r))
  }

  /** The start node a relation remembers, if any. */
  function FromEnd(rel: Element): (s: set<Element>)
    reads rel
    ensures rel.fromNode != null <==> rel.fromNode in s
  {
    if rel.fromNode != null then {rel.fromNode} else {}
  }

  /** The end node a relation remembers, if any. */
  function ToEnd(rel: Element): (s: set<Element>)
    reads rel
    ensures rel.toNode != null <==> rel.toNode in s
  {
    if rel.toNode != null then {rel.toNode} else {}
  }

  /** `findIndex(x => x.id === id)`. */
  function FindId(s: seq<Element>, id: string): (i: int)
    ensures -1 <= i < |s|
    ensures i >= 0 ==> s[i].id == id && forall k :: 0 <= k < i ==> s[k].id != id
    ensures i == -1 <==> forall k :: 0 <= k < |s| ==> s[k].id != id
  {
    if s == [] then -1
    else if s[0].id == id then 0
    else var t := FindId(s[1..], id); if t == -1 then -1 else t + 1
  }

  /** `splice(findIndex(x => x.id === id), 1)` when some entry has that id. */
  function Unlinked(s: seq<Element>, id: string): (r: seq<Element>)
    ensures |s| > 0 && s[0].id == id ==> r == s[1..]
  {
    var i := FindId(s, id);
    if i >= 0 then RemoveAt(s, i) else s
  }

  /** The splice takes out at most the entries with that id, and no other. */
  lemma UnlinkedMembers(s: seq<Element>, id: string)
    ensures forall x :: x in Unlinked(s, id) ==> x in s
    ensures forall x :: x in s && x.id != id ==> x in Unlinked(s, id)
  {
    var i := FindId(s, id);
    if i >= 0 {
      forall x | x in s && x.id != id ensures x in Unlinked(s, id) {
        var k :| 0 <= k < |s| && s[k] == x;
        if k < i {
          assert s[..i][k] == x;
        } else {
          assert s[i + 1..][k - i - 1] == x;
        }
      }
    }
  }

  /** Lists nobody touched keep their soundness and exactness. */
  twostate lemma KeptLists(m: map<string, Element>)
    requires unchanged(m.Values)
    ensures old(SoundIn(m)) ==> SoundIn(m)
    ensures old(ExactIn(m)) ==> ExactIn(m)
  {
  }

  /** With distinct ids the splice takes out exactly the entry with that id. */
  lemma UnlinkedDistinct(s: seq<Element>, id: string)
    requires DistinctIds(s)
    ensures DistinctIds(Unlinked(s, id))
    ensures forall x :: x in Unlinked(s, id) ==> x.id != id
  {
    var i := FindId(s, id);
    if i >= 0 {
      RemovedDistinct(s, i);
    }
  }

  /** Taking one entry out of a list with distinct ids leaves distinct ids, none of them its id. */
  lemma RemovedDistinct(s: seq<Element>, i: nat)
    requires i < |s| && DistinctIds(s)
    ensures DistinctIds(RemoveAt(s, i))
    ensures forall x :: x in RemoveAt(s, i) ==> x.id != s[i].id
  {
    var r := RemoveAt(s, i);
    forall a, b | 0 <= a < b < |r| ensures r[a].id != r[b].id {
      assert r[a] == s[if a < i then a else a + 1] && r[b] == s[if b < i then b else b + 1];
    }
    forall x | x in r ensures x.id != s[i].id {
      var k :| 0 <= k < |r| && r[k] == x;
      assert x == s[if k < i then k else k + 1];
    }
  }

  /** `var i = s.findIndex(x => x.id === id); if (i > -1) s.splice(i, 1)`. */
  method SpliceOut(s: seq<Element>, id: string) returns (r: seq<Element>)
    ensures r == Unlinked(s, id)
  {
    r := s;
    var i := FindId(s, id);
    if i > -1 {
      r := RemoveAt(s, i);
    }
  }

  /**
   * The relation branch of `delete`, at the start node it remembers: when
   * that node's list is not empty, the first entry with the relation's id
   * is spliced out.
   */
  method SpliceFrom(f: Element, id: string)
    modifies f`fromRels
    ensures f.fromRels == Unlinked(old(f.fromRels), id)
  {
    if |f.fromRels| > 0 {
      f.fromRels := SpliceOut(f.fromRels, id);
    }
  }

  /** The same at the end node it remembers. */
  method SpliceTo(t: Element, id: string)
    modifies t`toRels
    ensures t.toRels == Unlinked(old(t.toRels), id)
  {
    if |t.toRels| > 0 {
      t.toRels := SpliceOut(t.toRels, id);
    }
  }

  /**
   * Both splices of the relation branch of `delete`. A node whose lists
   * were sound (exact) in the table `m0` has sound (exact) lists in the
   * table without the relation.
   */
  method SpliceEnds(rel: Element, ghost m0: map<string, Element>)
    requires IdKeyed(m0) && EndsAreNodes(m0) && rel in m0.Values && !rel.isNode
    modifies FromEnd(rel)`fromRels, ToEnd(rel)`toRels
    ensures rel.fromNode != null ==> rel.fromNode.fromRels == Unlinked(old(rel.fromNode.fromRels), rel.id)
    ensures rel.toNode != null ==> rel.toNode.toRels == Unlinked(old(rel.toNode.toRels), rel.id)
    ensures old(SoundIn(m0)) ==> SoundIn(m0 - {rel.id})
    ensures old(SoundIn(m0) && ExactIn(m0)) ==> ExactIn(m0 - {rel.id})
  {
    ghost var sound := SoundIn(m0);
    ghost var exact := ExactIn(m0);
    if rel.fromNode != null {
      SpliceFrom(rel.fromNode, rel.id);
    }
    if rel.toNode != null {
      SpliceTo(rel.toNode, rel.id);
    }
    var m := m0 - {rel.id};
    if sound {
      forall n | n in m.Values && n.isNode ensures NodeSound(m, n) && (exact ==> NodeDrawn(m, n)) {
        assert n in m0.Values;
        assert old(NodeSound(m0, n));
        DroppedNodeSound(m0, rel, n, old(n.fromRels), old(n.toRels));
        if exact {
          assert old(NodeDrawn(m0, n));
          DroppedNodeDrawn(m0, rel, old(n.fromRels), old(n.toRels), n.fromRels, n.toRels);
        }
      }
      if exact {
        forall r | r in m.Values && !r.isNode ensures RelationListed(m, r) {
          assert r in m0.Values && r != rel;
          if Visible(m, r) {
            assert old(RelationListed(m0, r));
            var f, t := m0[r.from.value], m0[r.to.value];
            DroppedRelationListed(m0, rel, r, old(f.fromRels), old(t.toRels));
          }
        }
      }
    }
  }

  /**
   * One node's lists after a relation was spliced out of the lists of the
   * nodes it remembers and left the table: still sound.
   */
  lemma DroppedNodeSound(m0: map<string, Element>, rel: Element, n: Element, from0: seq<Element>, to0: seq<Element>)
    requires IdKeyed(m0) && rel in m0.Values && !rel.isNode
    requires EntriesSound(m0, n, from0, to0)
    requires n.fromRels == (if n == rel.fromNode then Unlinked(from0, rel.id) else from0)
    requires n.toRels == (if n == rel.toNode then Unlinked(to0, rel.id) else to0)
    ensures NodeSound(m0 - {rel.id}, n)
  {
    DroppedList(m0, rel, from0, n.fromRels, n == rel.fromNode);
    DroppedList(m0, rel, to0, n.toRels, n == rel.toNode);
  }

  /** One list after a relation left it (when `spliced`): distinct stored entries of the old list. */
  lemma DroppedList(m0: map<string, Element>, rel: Element, xs0: seq<Element>, xs: seq<Element>, spliced: bool)
    requires IdKeyed(m0) && rel in m0.Values
    requires DistinctIds(xs0) && forall r :: r in xs0 ==> r in m0.Values && (r == rel ==> spliced)
    requires xs == if spliced then Unlinked(xs0, rel.id) else xs0
    ensures DistinctIds(xs) && forall r :: r in xs ==> r in xs0 && r in (m0 - {rel.id}).Values
  {
    var m := m0 - {rel.id};
    ValueKey(m0, rel);
    UnlinkedDistinct(xs0, rel.id);
    UnlinkedMembers(xs0, rel.id);
    forall r | r in xs ensures r in xs0 && r in m.Values {
      ValueKey(m0, r);
      assert m[r.id] == r;
    }
  }

  /** One node's lists after a relation left: its entries are still drawn. */
  lemma DroppedNodeDrawn(m0: map<string, Element>, rel: Element, from0: seq<Element>, to0: seq<Element>, from: seq<Element>, to: seq<Element>)
    requires IdKeyed(m0) && EndsAreNodes(m0) && rel in m0.Values && !rel.isNode
    requires forall r :: r in from0 || r in to0 ==> r in m0.Values && !r.isNode
    requires EntriesDrawn(m0, from0, to0)
    requires from == from0 || from == Unlinked(from0, rel.id)
    requires to == to0 || to == Unlinked(to0, rel.id)
    ensures EntriesDrawn(m0 - {rel.id}, from, to)
  {
    ValueKey(m0, rel);
    UnlinkedMembers(from0, rel.id);
    UnlinkedMembers(to0, rel.id);
    forall r | (r in from || r in to) && r.id != "" ensures Visible(m0 - {rel.id}, r) {
      assert r in from0 || r in to0;
      ValueKey(m0, r);
      assert m0[r.from.value].isNode && m0[r.to.value].isNode;
    }
  }

  /** Taking a node out of the table keeps another node's lists sound. */
  lemma ForgotNodeSound(m0: map<string, Element>, k: string, n: Element)
    requires IdKeyed(m0) && k in m0 && m0[k].isNode && NodeSound(m0, n)
    ensures NodeSound(m0 - {k}, n)
  {
    forall r | r in n.fromRels || r in n.toRels ensures r in (m0 - {k}).Values {
      ValueKey(m0, r);
      assert (m0 - {k})[r.id] == r;
    }
  }

  /** The list a rebuild gives a node at one end: the drawn relations at that end, each once, pointing back at it. */
  lemma LinkedEntries(m: map<string, Element>, rl: seq<Element>, n: Element, outgoing: bool)
    requires IdKeyed(m) && n in m.Values && n.isNode && RelationList(m, rl)
    requires NodeLinked(m, rl, n)
    requires forall k :: 0 <= k < |rl| ==> RelationLinked(m, rl, k)
    ensures var xs := if outgoing then n.fromRels else n.toRels;
      && NoDuplicates(xs)
      && forall r :: r in xs ==>
           && r in m.Values && !r.isNode && Visible(m, r)
           && (if outgoing then r.from else r.to) == Some(n.id)
           && (if outgoing then r.fromNode else r.toNode) == n
  {
    ValueKey(m, n);
    if outgoing {
      var p := (r: Element) => Visible(m, r) && r.from == Some(n.id);
      FilterNoDuplicates(rl, p);
      forall r | r in n.fromRels
        ensures r in m.Values && !r.isNode && Visible(m, r) && r.from == Some(n.id) && r.fromNode == n
      {
        FilterMember(rl, p, r);
        var k :| 0 <= k < |rl| && rl[k] == r;
        assert RelationLinked(m, rl, k);
      }
    } else {
      var p := (r: Element) => Visible(m, r) && r.to == Some(n.id);
      FilterNoDuplicates(rl, p);
      forall r | r in n.toRels
        ensures r in m.Values && !r.isNode && Visible(m, r) && r.to == Some(n.id) && r.toNode == n
      {
        FilterMember(rl, p, r);
        var k :| 0 <= k < |rl| && rl[k] == r;
        assert RelationLinked(m, rl, k);
      }
    }
  }

  /** A drawn relation stays drawn while only relations leave the table. */
  lemma StillVisible(m0: map<string, Element>, gone: set<string>, r: Element)
    requires IdKeyed(m0) && EndsAreNodes(m0) && r in m0.Values && !r.isNode && Visible(m0, r)
    requires forall k :: k in gone && k in m0 ==> !m0[k].isNode
    ensures Visible(m0 - gone, r)
  {
    ValueKey(m0, r);
    assert m0[r.from.value].isNode && m0[r.to.value].isNode;
  }

  // ---------------------------------------------------------------------
  // delete: the forEach over a list that the callback splices
  // ---------------------------------------------------------------------

  /**
   * The index of the first entry a nested delete finds, in a list whose
   * ids are distinct. Such a list has at most one entry with the id "",
   * which is never found, and it may sit at any index. The first entry is
   * found unless it is that one, so the index is 1 when `xs[0].id` is ""
   * and 0 otherwise.
   */
  function Lead(xs: seq<Element>): nat
  {
    if |xs| > 0 && xs[0].id == "" then 1 else 0
  }

  /**
   * The entries `xs.forEach(f)` reaches when the first call of `f` that
   * finds its relation (at `Lead(xs)`) splices that entry out of `xs`
   * itself and no later call touches `xs`: the walk goes on at the next
   * index of the shortened array, so the entry that moved there is never
   * reached, and the last index is gone.
   */
  function Visits(xs: seq<Element>): (v: seq<Element>)
    ensures |v| == if |xs| > Lead(xs) + 1 then |xs| - 1 else |xs|
    ensures forall j :: 0 <= j < |v| ==> v[j] == xs[if j <= Lead(xs) then j else j + 1]
  {
    var l := Lead(xs);
    if |xs| <= l + 1 then xs else xs[..l + 1] + xs[l + 2..]
  }

  /** The node's list once the first nested delete that finds its relation has spliced that entry out. */
  function Spliced(xs: seq<Element>): seq<Element>
  {
    if Lead(xs) < |xs| then xs[..Lead(xs)] + xs[Lead(xs) + 1..] else xs
  }

  /** The first findable entry is not "", and splicing it out by id takes out exactly that index. */
  lemma LeadFound(xs: seq<Element>)
    requires DistinctIds(xs) && Lead(xs) < |xs|
    ensures xs[Lead(xs)].id != ""
    ensures Unlinked(xs, xs[Lead(xs)].id) == Spliced(xs)
  {
    var l := Lead(xs);
    assert FindId(xs, xs[l].id) == l;
  }

  /** The walk reaches only entries of the list, and every one but the entry after the first findable one. */
  lemma VisitsIn(xs: seq<Element>)
    ensures forall x :: x in Visits(xs) ==> x in xs
    ensures forall k :: 0 <= k < |xs| && k != Lead(xs) + 1 ==> xs[k] in Visits(xs)
  {
    var v, l := Visits(xs), Lead(xs);
    if |xs| > l + 1 {
      forall k | 0 <= k < |xs| && k != l + 1 ensures xs[k] in v {
        assert v[if k <= l then k else k - 1] == xs[k];
      }
    }
  }

  /**
   * Every entry but the one after the first findable entry is reached, and
   * that one is not (when the entries are distinct).
   */
  lemma VisitsSkipNext(xs: seq<Element>)
    requires DistinctIds(xs)
    ensures forall x :: x in Visits(xs) ==> x in xs
    ensures DistinctIds(Visits(xs))
    ensures forall k :: 0 <= k < |xs| && k != Lead(xs) + 1 ==> xs[k] in Visits(xs)
    ensures |xs| > Lead(xs) + 1 ==> xs[Lead(xs) + 1].id !in IdsOf(Visits(xs))
  {
    VisitsIn(xs);
    VisitsDistinct(xs);
    if |xs| > Lead(xs) + 1 {
      VisitsMiss(xs);
    }
  }

  /** The entries reached have distinct ids when the list's entries do. */
  lemma VisitsDistinct(xs: seq<Element>)
    requires DistinctIds(xs)
    ensures DistinctIds(Visits(xs))
  {
    var v, l := Visits(xs), Lead(xs);
    forall a, b | 0 <= a < b < |v| ensures v[a].id != v[b].id {
      assert v[a] == xs[if a <= l then a else a + 1] && v[b] == xs[if b <= l then b else b + 1];
    }
  }

  /** No entry reached shares the id of the entry after the first findable one. */
  lemma VisitsMiss(xs: seq<Element>)
    requires DistinctIds(xs) && |xs| > Lead(xs) + 1
    ensures xs[Lead(xs) + 1].id !in IdsOf(Visits(xs))
  {
    var v, l := Visits(xs), Lead(xs);
    IdsOfMembers(v, xs[l + 1].id);
    forall x | x in v ensures x.id != xs[l + 1].id {
      var j :| 0 <= j < |v| && v[j] == x;
      assert x == xs[if j <= l then j else j + 1];
    }
  }

  /**
   * A nested delete of `k` after the ids `gone` were deleted: it drops `k`
   * when it finds it ("" it never finds), and the table is then `m`
   * without the findable ids deleted so far.
   */
  lemma MinusFound(m: map<string, Element>, gone: set<string>, k: string, deleted: bool, after: map<string, Element>)
    requires deleted <==> k != "" && k in m - gone
    requires after == if deleted then (m - gone) - {k} else m - gone
    ensures after == m - (gone + ({k} - {""}))
  {
    if !deleted && k != "" {
      assert (m - gone) - {k} == m - gone;
    }
  }

  /** The findable ids of the entries the walk over `xs` has reached after `i` steps. */
  function VisitedIds(xs: seq<Element>, i: nat): set<string>
  {
    var vs := Visits(xs);
    Findable(vs[..if i <= |vs| then i else |vs|])
  }

  /** Step `i` of the walk reaches `arr[i]`: the node's own array, then the shortened one. */
  lemma VisitedStep(xs: seq<Element>, arr: seq<Element>, i: nat)
    requires i < |arr| <= |xs| && arr == if i <= Lead(xs) then xs else Spliced(xs)
    ensures arr[i] in xs
    ensures VisitedIds(xs, i + 1) == VisitedIds(xs, i) + ({arr[i].id} - {""})
  {
    var vs, l := Visits(xs), Lead(xs);
    if i <= l {
      assert arr[i] == xs[i] == vs[i];
    } else {
      assert arr[i] == xs[i + 1] == vs[i];
    }
    assert vs[..i + 1] == vs[..i] + [arr[i]];
    FindableSnoc(vs[..i], arr[i]);
  }

  lemma FindableSnoc(rs: seq<Element>, r: Element)
    ensures Findable(rs + [r]) == Findable(rs) + ({r.id} - {""})
  {
    IdsOfSnoc(rs, r);
  }

  /** Past the end of the shortened array the walk reaches nothing. */
  lemma VisitedPast(xs: seq<Element>, arr: seq<Element>, i: nat)
    requires |arr| <= i < |xs| && arr == if i <= Lead(xs) then xs else Spliced(xs)
    ensures VisitedIds(xs, i + 1) == VisitedIds(xs, i)
  {
    assert Lead(xs) < i && |arr| == |xs| - 1;
    assert |Visits(xs)| <= i;
  }


  /** What the walk over a node's list starts from. */
  lemma WalkEntries(m: map<string, Element>, node: Element, from: seq<Element>, to: seq<Element>, outgoing: bool)
    requires IdKeyed(m) && node in m.Values && node.isNode && EntriesSound(m, node, from, to)
    ensures node.id in m && m[node.id] == node
    ensures var xs := if outgoing then from else to;
      && (forall r :: r in xs ==> r.id in m && m[r.id] == r && !r.isNode && r.id != node.id)
      && (|xs| > 0 ==> xs[0] in m.Values && (if outgoing then xs[0].fromNode else xs[0].toNode) == node)
      && m - VisitedIds(xs, 0) == m
      && DistinctIds(xs)
  {
    var xs := if outgoing then from else to;
    ValueKey(m, node);
    forall r | r in xs ensures r.id in m && m[r.id] == r && !r.isNode && r.id != node.id {
      ValueKey(m, r);
    }
    assert VisitedIds(xs, 0) == {};
  }

  lemma VisitedAll(xs: seq<Element>)
    ensures VisitedIds(xs, |xs|) == Findable(Visits(xs))
  {
    assert Visits(xs)[..|Visits(xs)|] == Visits(xs);
  }

  /** Deleting keys from an object leaves the others in visiting order. */
  lemma {:induction false} KeysInKeyOrder(ids: seq<string>, m: map<string, Element>)
    ensures KeysIn(ids, m) == Filter(ids, (k: string) => k in m)
    ensures InKeyOrder(ids) ==> InKeyOrder(KeysIn(ids, m))
  {
    if ids != [] {
      KeysInKeyOrder(ids[1..], m);
    }
    if InKeyOrder(ids) {
      FilterKeyOrdered(ids, (k: string) => k in m);
    }
  }

  /** The ids of a list, in order, that are still keys of `m`: `delete` keeps the order of the rest. */
  function KeysIn(ids: seq<string>, m: map<string, Element>): (r: seq<string>)
    ensures forall k :: k in r <==> k in ids && k in m
  {
    if ids == [] then []
    else (if ids[0] in m then [ids[0]] else []) + KeysIn(ids[1..], m)
  }

  lemma {:induction false} KeysInDistinct(ids: seq<string>, m: map<string, Element>)
    requires NoDuplicates(ids)
    ensures NoDuplicates(KeysIn(ids, m))
  {
    if ids != [] {
      var tail := ids[1..];
      assert NoDuplicates(tail) by {
        forall a, b | 0 <= a < b < |tail| ensures tail[a] != tail[b] {
          assert tail[a] == ids[a + 1] && tail[b] == ids[b + 1];
        }
      }
      KeysInDistinct(tail, m);
      assert ids[0] !in tail by {
        forall j | 0 <= j < |tail| ensures tail[j] != ids[0] {
          assert tail[j] == ids[j + 1];
        }
      }
    }
  }

  /** Dropping keys in two steps is dropping them in one. */
  lemma {:induction false} KeysInTwice(ids: seq<string>, m1: map<string, Element>, m2: map<string, Element>)
    requires m2.Keys <= m1.Keys
    ensures KeysIn(KeysIn(ids, m1), m2) == KeysIn(ids, m2)
  {
    if ids != [] {
      KeysInTwice(ids[1..], m1, m2);
      var rest := KeysIn(ids[1..], m1);
      if ids[0] in m1 {
        var t := [ids[0]] + rest;
        assert KeysIn(ids, m1) == t;
        assert t[0] == ids[0] && t[1..] == rest;
        assert KeysIn(t, m2) == (if ids[0] in m2 then [ids[0]] else []) + KeysIn(rest, m2);
      } else {
        assert KeysIn(ids, m1) == rest;
      }
    }
  }

  /** With every key of `m` listed, keeping the keys of `m` keeps the list. */
  lemma {:induction false} KeysInAll(ids: seq<string>, m: map<string, Element>)
    requires forall i :: 0 <= i < |ids| ==> ids[i] in m
    ensures KeysIn(ids, m) == ids
  {
    if ids != [] {
      KeysInAll(ids[1..], m);
    }
  }

  /** A drawn relation that was listed at both ends stays listed after another relation left. */
  lemma DroppedRelationListed(m0: map<string, Element>, rel: Element, r: Element, from0: seq<Element>, to0: seq<Element>)
    requires IdKeyed(m0) && rel in m0.Values && r in m0.Values && r != rel
    requires Visible(m0 - {rel.id}, r)
    requires r in from0 && r in to0
    requires m0[r.from.value].fromRels == (if m0[r.from.value] == rel.fromNode then Unlinked(from0, rel.id) else from0)
    requires m0[r.to.value].toRels == (if m0[r.to.value] == rel.toNode then Unlinked(to0, rel.id) else to0)
    ensures RelationListed(m0 - {rel.id}, r)
  {
    ValueKey(m0, rel);
    ValueKey(m0, r);
    UnlinkedMembers(from0, rel.id);
    UnlinkedMembers(to0, rel.id);
  }

  /** `a` holds some of the entries of `b`, unchanged. */
  ghost predicate SubMap(a: map<string, Element>, b: map<string, Element>)
  {
    forall k :: k in a ==> k in b && a[k] == b[k]
  }

  /** Three removals in a row leave entries of the first table. */
  lemma SubMapMinus(m0: map<string, Element>, m1: map<string, Element>, m2: map<string, Element>, m3: map<string, Element>)
    requires m1.Keys <= m0.Keys && m2.Keys <= m1.Keys && m3.Keys <= m2.Keys
    requires forall k :: k in m1 ==> m1[k] == m0[k]
    requires forall k :: k in m2 ==> m2[k] == m1[k]
    requires forall k :: k in m3 ==> m3[k] == m2[k]
    ensures SubMap(m3, m0)
  {
  }

  /** No drawn relation with a findable id starts (ends, when `outgoing` is false) at `k`. */
  ghost predicate NoneDrawnAt(m: map<string, Element>, k: string, outgoing: bool)
  {
    forall r :: r in m.Values && !r.isNode && r.id != "" && Visible(m, r) ==> (if outgoing then r.from else r.to) != Some(k)
  }

  /** No drawn relation with a findable id names `k` as an end. */
  ghost predicate Untouched(m: map<string, Element>, k: string)
  {
    NoneDrawnAt(m, k, true) && NoneDrawnAt(m, k, false)
  }

  /** Every stored relation of `m` with a findable id that `m0` drew is still drawn. */
  ghost predicate DrawnKept(m0: map<string, Element>, m: map<string, Element>)
  {
    forall r :: r in m.Values && !r.isNode && r.id != "" && Visible(m0, r) ==> Visible(m, r)
  }

  /** Taking out a set of ids and then one more id. */
  lemma MinusThen(m: map<string, Element>, a: set<string>, b: set<string>, k: string)
    ensures (m - (a + b)) - {k} == m - ({k} + a + b)
  {
  }

  /** Taking out ids that are `k` or name `k` removes only those. */
  lemma CascadeRemoved(m0: map<string, Element>, m: map<string, Element>, k: string, c: set<string>)
    requires m == m0 - c
    requires forall j :: j in c ==> j in m0 && (j == k || Names(m0[j], k))
    ensures RemovedOnly(m0, m, k)
  {
  }

  /**
   * The node branch as written removes the findable entries the fromRels
   * walk reaches (`v1`, relations that start at `k`), then those the toRels
   * walk reaches (`v2`, relations that end at `k`), then `k`.
   */
  lemma WalksRemoved(m0: map<string, Element>, m1: map<string, Element>, m2: map<string, Element>,
                     m3: map<string, Element>, k: string, v1: set<string>, v2: set<string>)
    requires m1 == m0 - v1 && m2 == m1 - v2 && m3 == m2 - {k}
    requires forall j :: j in v1 ==> j in m0 && !m0[j].isNode && m0[j].from == Some(k)
    requires forall j :: j in v2 ==> j in m1 && !m1[j].isNode && m1[j].to == Some(k)
    ensures v1 !! m3.Keys
    ensures RemovedOnly(m0, m3, k)
    ensures forall j :: j in m0 && j !in m3 && j != k && m0[j].to != Some(k) ==> j in v1
  {
  }

  /** `r` is a relation that names `k` as its start or its end. */
  predicate Names(r: Element, k: string)
  {
    !r.isNode && (r.from == Some(k) || r.to == Some(k))
  }

  /** `r` is a relation with an end among `ks`. */
  predicate NamesAny(r: Element, ks: seq<string>)
  {
    !r.isNode && ((r.from.Some? && r.from.value in ks) || (r.to.Some? && r.to.value in ks))
  }

  /** Every key `m0` has and `m` lacks is `k`, or a relation that names `k`. */
  ghost predicate RemovedOnly(m0: map<string, Element>, m: map<string, Element>, k: string)
  {
    forall j :: j in m0 && j !in m ==> j == k || Names(m0[j], k)
  }

  /**
   * The ids `delete` of `k` takes out of `m` as evidently intended: a node
   * with the findable relations of both its lists, a relation alone, and
   * nothing for "" or an id not stored.
   */
  ghost function Cascade(m: map<string, Element>, k: string): set<string>
    reads m.Values
  {
    if k == "" || k !in m then {}
    else if m[k].isNode then {k} + Findable(m[k].fromRels) + Findable(m[k].toRels)
    else {k}
  }

  /** The cascade of `k` over sound lists holds `k` and relations that name it. */
  lemma CascadeNames(m: map<string, Element>, k: string)
    requires IdKeyed(m) && SoundIn(m)
    ensures forall j :: j in Cascade(m, k) ==> j in m && (j == k || Names(m[j], k))
  {
    if k != "" && k in m && m[k].isNode {
      var n := m[k];
      assert NodeSound(m, n);
      forall j | j in Findable(n.fromRels) + Findable(n.toRels) ensures j in m && Names(m[j], k) {
        IdsOfMembers(n.fromRels, j);
        IdsOfMembers(n.toRels, j);
        var r :| (r in n.fromRels || r in n.toRels) && r.id == j;
        ValueKey(m, r);
      }
    }
  }

  /** The walk over a node's sound list reaches only relations that name the node at that end. */
  lemma WalkNames(m: map<string, Element>, n: Element, outgoing: bool)
    requires IdKeyed(m) && NodeSound(m, n)
    ensures var xs := if outgoing then n.fromRels else n.toRels;
      forall j :: j in Findable(Visits(xs)) ==>
        j in m && !m[j].isNode && (if outgoing then m[j].from else m[j].to) == Some(n.id)
  {
    var xs := if outgoing then n.fromRels else n.toRels;
    VisitsIn(xs);
    forall j | j in Findable(Visits(xs))
      ensures j in m && !m[j].isNode && (if outgoing then m[j].from else m[j].to) == Some(n.id)
    {
      IdsOfMembers(Visits(xs), j);
      var r :| r in Visits(xs) && r.id == j;
      ValueKey(m, r);
    }
  }

  /**
   * With sound and exact lists, a node's toRels holds exactly the stored
   * drawn relations that end at it (its "" entry aside).
   */
  lemma ArrivingExact(m: map<string, Element>, n: Element)
    requires IdKeyed(m) && SoundIn(m) && ExactIn(m) && n in m.Values && n.isNode
    ensures forall r :: r in n.toRels && r.id != "" ==> r in m.Values && !r.isNode && Visible(m, r) && r.to == Some(n.id)
    ensures forall r :: r in m.Values && !r.isNode && Visible(m, r) && r.to == Some(n.id) ==> r in n.toRels
  {
    assert NodeSound(m, n) && NodeDrawn(m, n);
    ListedAt(m, n, false);
  }

  /**
   * The second walk of the node branch goes over the toRels the first walk
   * left: the relations it deletes are those of the node's original toRels
   * that the first walk did not take.
   */
  lemma {:induction false} SecondPass(m0: map<string, Element>, m1: map<string, Element>, f0: seq<Element>,
                                      t0: seq<Element>, t1: seq<Element>, k: string)
    requires IdKeyed(m0) && m1 == m0 - Findable(f0) && DrawnKept(m0, m1)
    requires forall r :: r in t0 && r.id != "" ==> r in m0.Values && !r.isNode && Visible(m0, r) && r.to == Some(k)
    requires forall r :: r in m0.Values && !r.isNode && Visible(m0, r) && r.to == Some(k) ==> r in t0
    requires forall r :: r in t1 && r.id != "" ==> r in m1.Values && !r.isNode && Visible(m1, r) && r.to == Some(k)
    requires forall r :: r in m1.Values && !r.isNode && Visible(m1, r) && r.to == Some(k) ==> r in t1
    ensures m1 - Findable(t1) == m0 - (Findable(f0) + Findable(t0))
  {
    forall j | j in m1 ensures j in Findable(t1) <==> j in Findable(t0) {
      IdsOfMembers(t0, j);
      IdsOfMembers(t1, j);
      assert m1[j] == m0[j] && m0[j].id == j;
      if j in Findable(t0) {
        var r :| r in t0 && r.id == j;
        ValueKey(m0, r);
        assert r in m1.Values && Visible(m1, r);
      }
      if j in Findable(t1) {
        var r :| r in t1 && r.id == j;
        ValueKey(m0, r);
        assert Visible(m0, r);
      }
    }
  }

  /** Forgetting a node keeps the other nodes' lists sound. */
  lemma ForgotSound(m0: map<string, Element>, k: string)
    requires IdKeyed(m0) && k in m0 && m0[k].isNode && SoundIn(m0)
    ensures SoundIn(m0 - {k})
  {
    var m := m0 - {k};
    forall n | n in m.Values && n.isNode ensures NodeSound(m, n) {
      var j :| j in m && m[j] == n;
      assert m0[j] == n;
      ForgotNodeSound(m0, k, n);
    }
  }

  /** Forgetting a node no drawn relation names keeps the lists exact. */
  lemma ForgotExact(m0: map<string, Element>, k: string)
    requires IdKeyed(m0) && k in m0 && m0[k].isNode && SoundIn(m0) && ExactIn(m0) && Untouched(m0, k)
    ensures ExactIn(m0 - {k})
  {
    var m := m0 - {k};
    forall n | n in m.Values && n.isNode ensures NodeDrawn(m, n) {
      var j :| j in m && m[j] == n;
      assert m0[j] == n;
      assert NodeSound(m0, n) && NodeDrawn(m0, n);
      forall r | (r in n.fromRels || r in n.toRels) && r.id != "" ensures Visible(m, r) {
        assert r in m0.Values && !r.isNode && Visible(m0, r);
      }
    }
    forall r | r in m.Values && !r.isNode ensures RelationListed(m, r) {
      var j :| j in m && m[j] == r;
      assert m0[j] == r;
      assert RelationListed(m0, r);
    }
  }

  /** An entry that does not end at `k` is not among the ids a walk over entries ending at `k` deletes. */
  lemma NotVisited(m: map<string, Element>, ys: seq<Element>, s: Element, k: string)
    requires IdKeyed(m) && s in m.Values && s.to != Some(k)
    requires forall r :: r in ys ==> r in m.Values && r.to == Some(k)
    ensures s.id !in IdsOf(Visits(ys))
  {
    IdsOfMembers(Visits(ys), s.id);
    forall r | r in Visits(ys) ensures r.id != s.id {
      assert r in ys;
      ValueKey(m, r);
      ValueKey(m, s);
    }
  }

  /** Exact lists hold every drawn relation at its start and at its end. */
  lemma ListedAt(m: map<string, Element>, node: Element, outgoing: bool)
    requires IdKeyed(m) && node in m.Values && ExactIn(m)
    ensures forall r :: r in m.Values && !r.isNode && Visible(m, r) && (if outgoing then r.from else r.to) == Some(node.id) ==>
      r in (if outgoing then node.fromRels else node.toRels)
  {
    ValueKey(m, node);
    forall r | r in m.Values && !r.isNode && Visible(m, r) && (if outgoing then r.from else r.to) == Some(node.id)
      ensures r in (if outgoing then node.fromRels else node.toRels)
    {
      assert RelationListed(m, r);
    }
  }

  /** Step `i` of the walk over a copy deletes a stored relation not deleted before. */
  lemma CopyStep(m0: map<string, Element>, rels: seq<Element>, i: nat)
    requires i < |rels| && DistinctIds(rels)
    requires forall r :: r in rels ==> r.id in m0 && m0[r.id] == r && !r.isNode
    ensures rels[i].id in m0 - Findable(rels[..i]) && (m0 - Findable(rels[..i]))[rels[i].id] == rels[i]
    ensures Findable(rels[..i + 1]) == Findable(rels[..i]) + ({rels[i].id} - {""})
  {
    IdsOfMembers(rels[..i], rels[i].id);
    IdsOfSnoc(rels[..i], rels[i]);
    assert rels[..i + 1] == rels[..i] + [rels[i]];
  }

  /** Once every relation a node's exact list held is deleted, none drawn starts (or ends) at the node. */
  lemma WalkedAway(m0: map<string, Element>, m: map<string, Element>, rels: seq<Element>, k: string, outgoing: bool)
    requires IdKeyed(m0) && m == m0 - Findable(rels)
    requires forall r :: r in m0.Values && !r.isNode && Visible(m0, r) && (if outgoing then r.from else r.to) == Some(k) ==> r in rels
    ensures NoneDrawnAt(m, k, outgoing)
  {
    forall r | r in m.Values && !r.isNode && r.id != "" && Visible(m, r) ensures (if outgoing then r.from else r.to) != Some(k) {
      var j :| j in m && m[j] == r;
      assert m0[j] == r && j == r.id;
      assert Visible(m0, r);
      IdsOfMembers(rels, r.id);
    }
  }

  /** The ids of a list of stored relations name no node. */
  lemma RelationIds(m0: map<string, Element>, rels: seq<Element>)
    requires forall r :: r in rels ==> r.id in m0 && m0[r.id] == r && !r.isNode
    ensures forall k :: k in IdsOf(rels) && k in m0 ==> !m0[k].isNode
  {
    forall k | k in IdsOf(rels) && k in m0 ensures !m0[k].isNode {
      IdsOfMembers(rels, k);
    }
  }

  /** Deleting relations keeps every other drawn relation drawn. */
  lemma DrawnKeptRelations(m0: map<string, Element>, gone: set<string>)
    requires IdKeyed(m0) && EndsAreNodes(m0)
    requires forall k :: k in gone && k in m0 ==> !m0[k].isNode
    ensures DrawnKept(m0, m0 - gone)
  {
    var m := m0 - gone;
    forall r | r in m.Values && !r.isNode && Visible(m0, r) ensures Visible(m, r) {
      var j :| j in m && m[j] == r;
      assert m0[j] == r;
      StillVisible(m0, gone, r);
    }
  }

  /** A smaller table draws no more at a node than a larger one. */
  lemma NoneDrawnKept(m1: map<string, Element>, m2: map<string, Element>, k: string, outgoing: bool)
    requires SubMap(m2, m1) && NoneDrawnAt(m1, k, outgoing)
    ensures NoneDrawnAt(m2, k, outgoing)
  {
    forall r | r in m2.Values && !r.isNode && r.id != "" && Visible(m2, r) ensures (if outgoing then r.from else r.to) != Some(k) {
      var j :| j in m2 && m2[j] == r;
      assert m1[j] == r;
      assert Visible(m1, r);
    }
  }

  /** Forgetting a node no drawn relation names keeps every drawn relation drawn. */
  lemma ForgotDrawnKept(m: map<string, Element>, k: string)
    requires Untouched(m, k)
    ensures DrawnKept(m, m - {k})
  {
    forall r | r in (m - {k}).Values && !r.isNode && r.id != "" && Visible(m, r) ensures Visible(m - {k}, r) {
      var j :| j in m - {k} && (m - {k})[j] == r;
      assert r in m.Values;
    }
  }

  /** Keeping drawn relations drawn composes. */
  lemma DrawnKeptTrans(m0: map<string, Element>, m1: map<string, Element>, m2: map<string, Element>)
    requires SubMap(m2, m1) && DrawnKept(m0, m1) && DrawnKept(m1, m2)
    ensures DrawnKept(m0, m2)
  {
    forall r | r in m2.Values && !r.isNode && r.id != "" && Visible(m0, r) ensures Visible(m2, r) {
      var j :| j in m2 && m2[j] == r;
      assert m1[j] == r;
    }
  }

  /** What `delete(idList)` has done to the table after the first `i` ids. */
  ghost predicate Progress(idList: seq<string>, m0: map<string, Element>, m: map<string, Element>, deleted: seq<Element>, i: nat)
  {
    && i <= |idList| && IdKeyed(m0)
    && SubMap(m, m0) && (forall j :: 0 <= j < i && idList[j] != "" ==> idList[j] !in m)
    && (deleted == [] <==> forall j :: 0 <= j < i ==> idList[j] == "" || idList[j] !in m0)
    && (forall e :: e in deleted ==> e.id in idList && e.id in m0 && m0[e.id] == e)
    && (deleted == [] ==> m == m0)
    && (forall j :: j in m0 && j !in m ==> j in idList || NamesAny(m0[j], idList))
    && (forall j :: j in m0 && j !in m && !NamesAny(m0[j], idList) ==> m0[j] in deleted)
  }

  /** One more id: what it found joins `deleted`, and it is gone from the table. */
  lemma ProgressStep(idList: seq<string>, m0: map<string, Element>, m: map<string, Element>, m': map<string, Element>,
                     deleted: seq<Element>, i: nat, found: Option<Element>)
    requires i < |idList| && Progress(idList, m0, m, deleted, i)
    requires found.Some? <==> idList[i] != "" && idList[i] in m
    requires found.Some? ==> found.value == m[idList[i]]
    requires (idList[i] != "" ==> idList[i] !in m') && SubMap(m', m)
    requires found.None? ==> m' == m
    requires RemovedOnly(m, m', idList[i])
    ensures Progress(idList, m0, m', if found.Some? then deleted + [found.value] else deleted, i + 1)
  {
    var d := if found.Some? then deleted + [found.value] else deleted;
    forall e | e in d ensures e.id in idList && e.id in m0 && m0[e.id] == e {
      if e !in deleted {
        assert e == found.value && idList[i] in m && m0[idList[i]] == e;
      }
    }
    forall j | j in m0 && j !in m' ensures j in idList || NamesAny(m0[j], idList) {
      if j in m {
        assert m[j] == m0[j];
      }
    }
    forall j | j in m0 && j !in m' && !NamesAny(m0[j], idList) ensures m0[j] in d {
      if j in m {
        assert m[j] == m0[j] && j == idList[i];
      }
    }
  }

  /** A relation that outlives its start node is stored but no longer drawn. */
  lemma Stranded(m0: map<string, Element>, m: map<string, Element>, s: Element, k: string)
    requires s.id in m0 && m0[s.id] == s && SubMap(m, m0)
    requires s.id in m && s.from == Some(k) && k !in m
    ensures s in m.Values && !Visible(m, s)
  {
    assert m[s.id] == s;
  }

  /** After the last id: every listed id is gone, and `deleted` holds exactly what was found. */
  lemma ProgressDone(idList: seq<string>, m0: map<string, Element>, m: map<string, Element>, deleted: seq<Element>)
    requires Progress(idList, m0, m, deleted, |idList|)
    ensures SubMap(m, m0) && forall k :: k in idList && k != "" ==> k !in m
    ensures deleted == [] <==> forall k :: k in idList ==> k == "" || k !in m0
    ensures forall e :: e in deleted ==> e.id in idList && e.id in m0 && m0[e.id] == e
    ensures deleted == [] ==> m == m0
    ensures forall j :: j in m0 && j !in m ==> j in idList || NamesAny(m0[j], idList)
    ensures forall k :: k in idList && k != "" && k in m0 && !NamesAny(m0[k], idList) ==> m0[k] in deleted
  {
    assert idList[..|idList|] == idList;
  }
}
