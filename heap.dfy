/**
  The Go heap the path engine works on. A table (`map[string]any`) is a
  `MapNode` object whose entries are updated in place; an array (`[]any`) is a
  Dafny `array<Node>`, written in place when an element is set and replaced by
  a new array when it grows or shrinks; scalars and `nil` are plain values.

  A ghost `Shape` describes one tree in the heap: which objects it is made
  of (`Objs`), that no object is shared (`Tree`), that the heap holds it
  (`Rep`), and the `Value` it denotes (`Val`). A `Link` is one step down
  from the root with the rest of its container remembered; a sequence of links
  plus the shape below them is the tree split at the node being visited
  (a zipper), which is what Go's `parents` stack records.
*/
module Heap {
  import opened Document
  import opened Navigator

  class MapNode {
    var entries: map<string, Node>

    constructor ()
      ensures entries == map[]
    {
      entries := map[];
    }
  }

  /** What a Go `any` in the tree holds. */
  datatype Node =
    | NMap(table: MapNode)
    | NArr(arr: array<Node>)
    | NStr(s: string)
    | NInt(i: int)
    | NFloat(raw: string)
    | NBool(b: bool)
    | NNil

  /** The value of a node that is not a container. */
  function Scalar(n: Node): Value
  {
    match n
    case NStr(s) => VStr(s)
    case NInt(i) => VInt(i)
    case NFloat(r) => VFloat(r)
    case NBool(b) => VBool(b)
    case _ => VNil
  }

  datatype Shape =
    | SMap(table: MapNode, kids: map<string, Shape>)
    | SArr(arr: array<Node>, elems: seq<Shape>)
    | SLeaf(leaf: Node)

  function NodeOf(s: Shape): Node
  {
    match s
    case SMap(t, _) => NMap(t)
    case SArr(a, _) => NArr(a)
    case SLeaf(n) => n
  }

  ghost function Objs(s: Shape): (r: set<object>)
    ensures s.SMap? ==> s.table in r && forall k :: k in s.kids ==> Objs(s.kids[k]) <= r
    ensures s.SArr? ==> s.arr in r && forall j :: 0 <= j < |s.elems| ==> Objs(s.elems[j]) <= r
  {
    match s
    case SMap(t, kids) => {t} + (set k, o: object | k in kids && o in Objs(kids[k]) :: o)
    case SArr(a, es) => {a} + (set j, o: object | 0 <= j < |es| && o in Objs(es[j]) :: o)
    case SLeaf(_) => {}
  }

  /** No object occurs twice in the tree, and leaves are scalars. */
  ghost predicate Tree(s: Shape)
  {
    match s
    case SMap(t, kids) =>
      (forall k :: k in kids ==> t !in Objs(kids[k]) && Tree(kids[k])) &&
      (forall k, k' :: k in kids && k' in kids && k != k' ==> Objs(kids[k]) !! Objs(kids[k']))
    case SArr(a, es) =>
      (forall j :: 0 <= j < |es| ==> a !in Objs(es[j]) && Tree(es[j])) &&
      (forall j, j' :: 0 <= j < |es| && 0 <= j' < |es| && j != j' ==> Objs(es[j]) !! Objs(es[j']))
    case SLeaf(n) => !n.NMap? && !n.NArr?
  }

  /** The heap holds the tree `s` describes. */
  ghost predicate Rep(s: Shape)
    reads Objs(s)
  {
    match s
    case SMap(t, kids) =>
      t.entries.Keys == kids.Keys &&
      forall k :: k in kids ==> t.entries[k] == NodeOf(kids[k]) && Rep(kids[k])
    case SArr(a, es) =>
      a.Length == |es| &&
      forall j :: 0 <= j < |es| ==> a[j] == NodeOf(es[j]) && Rep(es[j])
    case SLeaf(_) => true
  }

  ghost function Val(s: Shape): Value
  {
    match s
    case SMap(_, kids) => VMap(map k | k in kids :: Val(kids[k]))
    case SArr(_, es) => VArr(seq(|es|, j requires 0 <= j < |es| => Val(es[j])))
    case SLeaf(n) => Scalar(n)
  }

  /** `s` is a well-formed tree held by the heap. */
  ghost predicate Valid(s: Shape)
    reads Objs(s)
  {
    Tree(s) && Rep(s)
  }

  // ---- Links: one step down, with the rest of the container

  /**
    The container `table` or `arr` with the visited slot `key` or `index`.
    `kids` and `elems` describe the container as it was when the walk went
    through; the visited slot's entry there is stale and ignored.
  */
  datatype Link =
    | LMap(table: MapNode, kids: map<string, Shape>, key: string)
    | LArr(arr: array<Node>, elems: seq<Shape>, index: nat)

  function LinkNode(l: Link): Node
  {
    match l
    case LMap(t, _, _) => NMap(t)
    case LArr(a, _, _) => NArr(a)
  }

  ghost function LinkObjs(l: Link): set<object>
  {
    match l
    case LMap(t, kids, key) => {t} + (set k, o: object | k in kids && k != key && o in Objs(kids[k]) :: o)
    case LArr(a, es, i) => {a} + (set j, o: object | 0 <= j < |es| && j != i && o in Objs(es[j]) :: o)
  }

  ghost predicate LinkTree(l: Link)
  {
    match l
    case LMap(t, kids, key) =>
      (forall k :: k in kids && k != key ==> t !in Objs(kids[k]) && Tree(kids[k])) &&
      (forall k, k' :: k in kids && k' in kids && k != key && k' != key && k != k' ==> Objs(kids[k]) !! Objs(kids[k']))
    case LArr(a, es, i) =>
      i < |es| &&
      (forall j :: 0 <= j < |es| && j != i ==> a !in Objs(es[j]) && Tree(es[j])) &&
      (forall j, j' :: 0 <= j < |es| && 0 <= j' < |es| && j != i && j' != i && j != j' ==> Objs(es[j]) !! Objs(es[j']))
  }

  /** The heap holds the link's container, with `hole` in the visited slot. */
  ghost predicate LinkRep(l: Link, hole: Node)
    reads LinkObjs(l)
  {
    match l
    case LMap(t, kids, key) =>
      t.entries.Keys == kids.Keys + {key} && t.entries[key] == hole &&
      forall k :: k in kids && k != key ==> t.entries[k] == NodeOf(kids[k]) && Rep(kids[k])
    case LArr(a, es, i) =>
      a.Length == |es| && i < |es| && a[i] == hole &&
      forall j :: 0 <= j < |es| && j != i ==> a[j] == NodeOf(es[j]) && Rep(es[j])
  }

  /** The link as a value-level slot. */
  ghost function LinkSlot(l: Link): Slot
  {
    match l
    case LMap(_, kids, key) => InMap(map k | k in kids :: Val(kids[k]), key)
    case LArr(_, es, i) => InArr(seq(|es|, j requires 0 <= j < |es| => Val(es[j])), i)
  }

  /** The container of the link with `s` put in the visited slot. */
  function Plug(l: Link, s: Shape): Shape
  {
    match l
    case LMap(t, kids, key) => SMap(t, kids[key := s])
    case LArr(a, es, i) => SArr(a, if i < |es| then es[i := s] else es)
  }

  lemma PlugObjs(l: Link, s: Shape)
    requires l.LArr? ==> l.index < |l.elems|
    ensures Objs(Plug(l, s)) == LinkObjs(l) + Objs(s)
  {
    var p := Plug(l, s);
    match l
    case LMap(t, kids, key) =>
      forall o | o in Objs(p) ensures o in LinkObjs(l) + Objs(s) {
        if o != t {
          var k :| k in p.kids && o in Objs(p.kids[k]);
          if k != key {
            assert o in Objs(kids[k]);
          }
        }
      }
      forall o | o in LinkObjs(l) ensures o in Objs(p) {
        if o != t {
          var k :| k in kids && k != key && o in Objs(kids[k]);
          assert p.kids[k] == kids[k];
        }
      }
      assert p.kids[key] == s;
    case LArr(a, es, i) =>
      forall o | o in Objs(p) ensures o in LinkObjs(l) + Objs(s) {
        if o != a {
          var j :| 0 <= j < |p.elems| && o in Objs(p.elems[j]);
          if j != i {
            assert o in Objs(es[j]);
          }
        }
      }
      forall o | o in LinkObjs(l) ensures o in Objs(p) {
        if o != a {
          var j :| 0 <= j < |es| && j != i && o in Objs(es[j]);
          assert p.elems[j] == es[j];
        }
      }
      assert p.elems[i] == s;
  }

  lemma PlugTree(l: Link, s: Shape)
    requires LinkTree(l) && Tree(s) && Objs(s) !! LinkObjs(l)
    ensures Tree(Plug(l, s))
  {
  }

  lemma PlugRep(l: Link, s: Shape)
    requires LinkRep(l, NodeOf(s)) && Rep(s)
    ensures Rep(Plug(l, s))
  {
  }

  lemma PlugVal(l: Link, s: Shape)
    ensures Val(Plug(l, s)) == Fill(LinkSlot(l), Val(s))
  {
    var p := Plug(l, s);
    match l
    case LMap(t, kids, key) =>
      var m := map k | k in kids :: Val(kids[k]);
      assert (map k | k in p.kids :: Val(p.kids[k])) == m[key := Val(s)];
    case LArr(a, es, i) =>
      var vs := seq(|es|, j requires 0 <= j < |es| => Val(es[j]));
      if i < |es| {
        assert seq(|p.elems|, j requires 0 <= j < |p.elems| => Val(p.elems[j])) == vs[i := Val(s)];
      }
  }

  // ---- Zippers: links from the root down to the visited node

  ghost function AllObjs(ctx: seq<Link>): set<object>
    decreases |ctx|
  {
    if ctx == [] then {} else AllObjs(ctx[..|ctx| - 1]) + LinkObjs(ctx[|ctx| - 1])
  }

  ghost predicate TreeLinks(ctx: seq<Link>)
    decreases |ctx|
  {
    ctx == [] ||
    (TreeLinks(ctx[..|ctx| - 1]) && LinkTree(ctx[|ctx| - 1]) && LinkObjs(ctx[|ctx| - 1]) !! AllObjs(ctx[..|ctx| - 1]))
  }

  /** The heap holds every link, each one's slot holding the next link's container and the last one's `hole`. */
  ghost predicate RepLinks(ctx: seq<Link>, hole: Node)
    reads AllObjs(ctx)
    decreases |ctx|
  {
    ctx == [] ||
    (RepLinks(ctx[..|ctx| - 1], LinkNode(ctx[|ctx| - 1])) && LinkRep(ctx[|ctx| - 1], hole))
  }

  /** The tree split at `s`: the whole is well formed and held by the heap. */
  ghost predicate Zipped(ctx: seq<Link>, s: Shape)
    reads AllObjs(ctx), Objs(s)
  {
    TreeLinks(ctx) && RepLinks(ctx, NodeOf(s)) && Tree(s) && Rep(s) && Objs(s) !! AllObjs(ctx)
  }

  /** The whole tree: `s` put back through every link. */
  function PlugAll(ctx: seq<Link>, s: Shape): Shape
    decreases |ctx|
  {
    if ctx == [] then s else PlugAll(ctx[..|ctx| - 1], Plug(ctx[|ctx| - 1], s))
  }

  /** The value of the whole tree when the visited node has value `v`. */
  ghost function FillAll(ctx: seq<Link>, v: Value): Value
    decreases |ctx|
  {
    if ctx == [] then v else FillAll(ctx[..|ctx| - 1], Fill(LinkSlot(ctx[|ctx| - 1]), v))
  }

  /** The outcome of a set on the whole tree, given its outcome at the visited node. */
  ghost function LiftSet(ctx: seq<Link>, r: SetResult): SetResult
    decreases |ctx|
  {
    if ctx == [] then r else LiftSet(ctx[..|ctx| - 1], SetInto(LinkSlot(ctx[|ctx| - 1]), r))
  }

  /** The outcome of a delete on the whole tree, given its outcome at the visited node. */
  ghost function LiftDel(ctx: seq<Link>, r: DelResult): DelResult
    decreases |ctx|
  {
    if ctx == [] then r else LiftDel(ctx[..|ctx| - 1], DelInto(LinkSlot(ctx[|ctx| - 1]), r))
  }

  /** Going up one link keeps the tree split and well formed. */
  lemma Ascend(ctx: seq<Link>, s: Shape)
    requires ctx != [] && Zipped(ctx, s)
    ensures var l := ctx[|ctx| - 1]; var up := Plug(l, s);
      Zipped(ctx[..|ctx| - 1], up) && Objs(up) == LinkObjs(l) + Objs(s) &&
      Val(up) == Fill(LinkSlot(l), Val(s)) && NodeOf(up) == LinkNode(l)
  {
    var l := ctx[|ctx| - 1];
    PlugObjs(l, s);
    PlugTree(l, s);
    PlugRep(l, s);
    PlugVal(l, s);
  }

  /** Putting the visited node back through every link gives the whole tree, well formed. */
  lemma {:induction false} PlugAllValid(ctx: seq<Link>, s: Shape)
    requires Zipped(ctx, s)
    ensures Valid(PlugAll(ctx, s)) && Objs(PlugAll(ctx, s)) == AllObjs(ctx) + Objs(s)
    decreases |ctx|
  {
    if ctx != [] {
      Ascend(ctx, s);
      PlugAllValid(ctx[..|ctx| - 1], Plug(ctx[|ctx| - 1], s));
    }
  }

  /** The whole tree has the value the links give the visited node's value. */
  lemma {:induction false} PlugAllVal(ctx: seq<Link>, s: Shape)
    ensures Val(PlugAll(ctx, s)) == FillAll(ctx, Val(s))
    decreases |ctx|
  {
    if ctx != [] {
      PlugVal(ctx[|ctx| - 1], s);
      PlugAllVal(ctx[..|ctx| - 1], Plug(ctx[|ctx| - 1], s));
    }
  }

  /** The whole tree's root is the first link's container. */
  lemma {:induction false} PlugAllRoot(ctx: seq<Link>, s: Shape)
    ensures NodeOf(PlugAll(ctx, s)) == if ctx == [] then NodeOf(s) else LinkNode(ctx[0])
    decreases |ctx|
  {
    if ctx != [] {
      var init := ctx[..|ctx| - 1];
      PlugAllRoot(init, Plug(ctx[|ctx| - 1], s));
      if init != [] {
        assert init[0] == ctx[0];
      }
    }
  }

  /** The definitions above, one link pushed. */
  lemma PushObjs(ctx: seq<Link>, l: Link)
    ensures AllObjs(ctx + [l]) == AllObjs(ctx) + LinkObjs(l)
  {
    assert (ctx + [l])[..|ctx|] == ctx;
  }

  lemma PushTree(ctx: seq<Link>, l: Link)
    ensures TreeLinks(ctx + [l]) <==> TreeLinks(ctx) && LinkTree(l) && LinkObjs(l) !! AllObjs(ctx)
  {
    assert (ctx + [l])[..|ctx|] == ctx;
  }

  lemma PushRep(ctx: seq<Link>, l: Link, h: Node)
    ensures RepLinks(ctx + [l], h) <==> RepLinks(ctx, LinkNode(l)) && LinkRep(l, h)
  {
    assert (ctx + [l])[..|ctx|] == ctx;
  }

  lemma PushLiftSet(ctx: seq<Link>, l: Link, r: SetResult)
    ensures LiftSet(ctx + [l], r) == LiftSet(ctx, SetInto(LinkSlot(l), r))
  {
    assert (ctx + [l])[..|ctx|] == ctx;
  }

  lemma PushLiftDel(ctx: seq<Link>, l: Link, r: DelResult)
    ensures LiftDel(ctx + [l], r) == LiftDel(ctx, DelInto(LinkSlot(l), r))
  {
    assert (ctx + [l])[..|ctx|] == ctx;
  }

  lemma PushPlug(ctx: seq<Link>, l: Link, s: Shape)
    ensures PlugAll(ctx + [l], s) == PlugAll(ctx, Plug(l, s))
  {
    assert (ctx + [l])[..|ctx|] == ctx;
  }

  /** Putting entry `k` back into the table it was taken from gives the table. */
  lemma PlugBack(s: Shape, k: string)
    requires s.SMap? && k in s.kids
    ensures Plug(LMap(s.table, s.kids, k), s.kids[k]) == s
  {
    assert s.kids[k := s.kids[k]] == s.kids;
  }

  /** Filling the slot of a link twice keeps the second filling. */
  lemma RePlug(l: Link, s: Shape, ns: Shape)
    requires l.LArr? ==> l.index < |l.elems|
    ensures l.LMap? ==> SMap(l.table, Plug(l, s).kids[l.key := ns]) == Plug(l, ns)
    ensures l.LArr? ==> SArr(l.arr, Plug(l, s).elems[l.index := ns]) == Plug(l, ns)
  {
    match l
    case LMap(t, kids, key) =>
      assert kids[key := s][key := ns] == kids[key := ns];
    case LArr(a, es, i) =>
      assert es[i := s][i := ns] == es[i := ns];
  }

  /** A walk that started at `tree` still did after one more step. */
  lemma PushRooted(tree: MapNode, ctx: seq<Link>, l: Link, s: Shape, x: Shape)
    requires Rooted(tree, ctx, s) && (ctx == [] ==> LinkNode(l) == NodeOf(s))
    ensures Rooted(tree, ctx + [l], x)
  {
    if ctx != [] {
      assert (ctx + [l])[0] == ctx[0];
    }
  }

  /** Taking entry `k` out of a table leaves a link and a subtree that share nothing. */
  lemma UnplugMap(s: Shape, k: string)
    requires Tree(s) && s.SMap? && k in s.kids
    ensures var l := LMap(s.table, s.kids, k);
      LinkTree(l) && LinkObjs(l) + Objs(s.kids[k]) == Objs(s) && LinkObjs(l) !! Objs(s.kids[k])
  {
    var l := LMap(s.table, s.kids, k);
    assert Plug(l, s.kids[k]) == s;
    PlugObjs(l, s.kids[k]);
  }

  lemma UnplugArr(s: Shape, i: nat)
    requires Tree(s) && s.SArr? && i < |s.elems|
    ensures var l := LArr(s.arr, s.elems, i);
      LinkTree(l) && LinkObjs(l) + Objs(s.elems[i]) == Objs(s) && LinkObjs(l) !! Objs(s.elems[i])
  {
    var l := LArr(s.arr, s.elems, i);
    assert Plug(l, s.elems[i]) == s;
    PlugObjs(l, s.elems[i]);
  }

  /** Going down into the entry `k` of the visited table. */
  lemma DescendMap(ctx: seq<Link>, s: Shape, k: string)
    requires Zipped(ctx, s) && s.SMap? && k in s.kids
    ensures var l := LMap(s.table, s.kids, k);
      Zipped(ctx + [l], s.kids[k]) && AllObjs(ctx + [l]) + Objs(s.kids[k]) == AllObjs(ctx) + Objs(s) &&
      LinkSlot(l) == InMap(Val(s).entries, k) && LinkNode(l) == NodeOf(s)
  {
    var l := LMap(s.table, s.kids, k);
    UnplugMap(s, k);
    PushObjs(ctx, l);
    PushTree(ctx, l);
    PushRep(ctx, l, NodeOf(s.kids[k]));
    assert LinkRep(l, NodeOf(s.kids[k]));
  }

  /** Going down into element `i` of the visited array. */
  lemma DescendArr(ctx: seq<Link>, s: Shape, i: nat)
    requires Zipped(ctx, s) && s.SArr? && i < |s.elems|
    ensures var l := LArr(s.arr, s.elems, i);
      Zipped(ctx + [l], s.elems[i]) && AllObjs(ctx + [l]) + Objs(s.elems[i]) == AllObjs(ctx) + Objs(s) &&
      LinkSlot(l) == InArr(Val(s).elems, i) && LinkNode(l) == NodeOf(s)
  {
    var l := LArr(s.arr, s.elems, i);
    UnplugArr(s, i);
    PushObjs(ctx, l);
    PushTree(ctx, l);
    PushRep(ctx, l, NodeOf(s.elems[i]));
    assert LinkRep(l, NodeOf(s.elems[i]));
  }

  // ---- Writing into the visited container

  /** The table `s` seen from its entry `k`, present or not. */
  lemma MapLink(s: Shape, k: string)
    requires Tree(s) && s.SMap?
    ensures LinkTree(LMap(s.table, s.kids, k)) && LinkObjs(LMap(s.table, s.kids, k)) <= Objs(s)
  {
  }

  /** The array `s` seen from its element `i`. */
  lemma ArrLink(s: Shape, i: nat)
    requires Tree(s) && s.SArr? && i < |s.elems|
    ensures LinkTree(LArr(s.arr, s.elems, i)) && LinkObjs(LArr(s.arr, s.elems, i)) <= Objs(s)
  {
  }

  /** What a link's slot held before does not matter to the link. */
  lemma LinkIgnoresHole(l: Link, x: Shape)
    ensures LinkObjs(Unplugged(l, x)) == LinkObjs(l)
  {
    match l
    case LMap(t, kids, key) =>
      assert LinkObjs(Unplugged(l, x)) == LinkObjs(l) by {
        var kids' := kids[key := x];
        assert forall k :: k in kids' && k != key <==> k in kids && k != key;
        assert forall k :: k in kids && k != key ==> kids'[k] == kids[k];
      }
    case LArr(a, es, i) =>
  }

  /** The link `l` after its slot was filled with `x`, seen again from that slot. */
  function Unplugged(l: Link, x: Shape): Link
  {
    match l
    case LMap(t, kids, key) => LMap(t, kids[key := x], key)
    case LArr(a, es, i) => LArr(a, if i < |es| then es[i := x] else es, i)
  }

  /** `t[k] = n` on the visited table: the entry now holds the tree `ns`. */
  method PutEntry(t: MapNode, k: string, n: Node, ghost ctx: seq<Link>, ghost s: Shape, ghost ns: Shape)
    requires s.SMap? && s.table == t && Zipped(ctx, s)
    requires Valid(ns) && NodeOf(ns) == n && Objs(ns) !! AllObjs(ctx) + LinkObjs(LMap(t, s.kids, k))
    modifies t
    ensures t.entries == old(t.entries)[k := n]
    ensures Zipped(ctx, SMap(t, s.kids[k := ns]))
    ensures Objs(SMap(t, s.kids[k := ns])) == LinkObjs(LMap(t, s.kids, k)) + Objs(ns)
  {
    ghost var l := LMap(t, s.kids, k);
    MapLink(s, k);
    assert t !in AllObjs(ctx) && t !in Objs(ns);
    t.entries := t.entries[k := n];
    assert LinkRep(l, n);
    PlugTree(l, ns);
    PlugRep(l, ns);
    PlugObjs(l, ns);
  }

  /** `a[i] = n` on the visited array: the element now holds the tree `ns`. */
  method PutElem(a: array<Node>, i: nat, n: Node, ghost ctx: seq<Link>, ghost s: Shape, ghost ns: Shape)
    requires s.SArr? && s.arr == a && i < |s.elems| && Zipped(ctx, s)
    requires Valid(ns) && NodeOf(ns) == n && Objs(ns) !! AllObjs(ctx) + LinkObjs(LArr(a, s.elems, i))
    modifies a
    ensures a[..] == old(a[..])[i := n]
    ensures Zipped(ctx, SArr(a, s.elems[i := ns]))
    ensures Objs(SArr(a, s.elems[i := ns])) == LinkObjs(LArr(a, s.elems, i)) + Objs(ns)
  {
    ghost var l := LArr(a, s.elems, i);
    ArrLink(s, i);
    assert a !in AllObjs(ctx) && a !in Objs(ns);
    a[i] := n;
    assert LinkRep(l, n);
    PlugTree(l, ns);
    PlugRep(l, ns);
    PlugObjs(l, ns);
  }

  /** The table `s` without its entry `k`: still a tree, over fewer objects. */
  lemma ShrinkMap(s: Shape, k: string)
    requires s.SMap? && Tree(s)
    ensures Tree(SMap(s.table, s.kids - {k})) && Objs(SMap(s.table, s.kids - {k})) <= Objs(s)
  {
    var kids := s.kids - {k};
    forall k' | k' in kids ensures kids[k'] == s.kids[k'] && Objs(kids[k']) <= Objs(s) {
    }
    MapObjsBelow(SMap(s.table, kids), Objs(s));
  }

  /** The table without entry `k` denotes the value without key `k`. */
  lemma ShrinkVal(s: Shape, k: string)
    requires s.SMap?
    ensures Val(SMap(s.table, s.kids - {k})) == VMap(Val(s).entries - {k})
  {
    var kids := s.kids - {k};
    assert (map k' | k' in kids :: Val(kids[k'])) == Val(s).entries - {k};
  }

  /** The objects of a table shape are the table and those of its entries. */
  lemma MapObjsBelow(s: Shape, bound: set<object>)
    requires s.SMap? && s.table in bound && forall k :: k in s.kids ==> Objs(s.kids[k]) <= bound
    ensures Objs(s) <= bound
  {
    forall o | o in Objs(s) ensures o in bound {
      if o != s.table {
        var k :| k in s.kids && o in Objs(s.kids[k]);
      }
    }
  }

  /** `delete(t, k)` on the visited table. */
  method RemoveEntry(t: MapNode, k: string, ghost ctx: seq<Link>, ghost s: Shape)
    requires s.SMap? && s.table == t && Zipped(ctx, s)
    modifies t
    ensures t.entries == old(t.entries) - {k}
    ensures Zipped(ctx, SMap(t, s.kids - {k})) && Objs(SMap(t, s.kids - {k})) <= Objs(s)
    ensures Val(SMap(t, s.kids - {k})) == VMap(Val(s).entries - {k})
  {
    ShrinkMap(s, k);
    ShrinkVal(s, k);
    ghost var s' := SMap(t, s.kids - {k});
    assert forall k' :: k' in s'.kids ==> t !in Objs(s'.kids[k']);
    assert t !in AllObjs(ctx);
    t.entries := t.entries - {k};
    assert Rep(s');
  }

  // ---- Facts the heap methods of module `Core` use

  /** The objects of a shape already exist, so a new object is none of them. */
  lemma {:induction false} ObjsAllocated(s: Shape)
    ensures forall o :: o in Objs(s) ==> allocated(o)
  {
    match s
    case SMap(t, kids) =>
      forall k | k in kids { ObjsAllocated(kids[k]); }
    case SArr(a, es) =>
      forall j | 0 <= j < |es| { ObjsAllocated(es[j]); }
    case SLeaf(_) =>
  }

  /** In a tree, the node's kind and the value's kind agree. */
  lemma ShapeKinds(s: Shape)
    requires Tree(s)
    ensures NodeOf(s).NMap? <==> s.SMap?
    ensures NodeOf(s).NArr? <==> s.SArr?
    ensures s.SMap? <==> Val(s).VMap?
    ensures s.SArr? <==> Val(s).VArr?
    ensures NodeOf(s) == NNil <==> Val(s) == VNil
    ensures s.SMap? ==> Val(s).entries.Keys == s.kids.Keys
    ensures s.SArr? ==> |Val(s).elems| == |s.elems|
  {
  }

  lemma ValPutMap(s: Shape, k: string, x: Shape)
    requires s.SMap?
    ensures Val(SMap(s.table, s.kids[k := x])) == VMap(Val(s).entries[k := Val(x)])
  {
    var s' := SMap(s.table, s.kids[k := x]);
    assert Val(s').entries == Val(s).entries[k := Val(x)];
  }

  lemma ValPutArr(s: Shape, i: nat, x: Shape)
    requires s.SArr? && i < |s.elems|
    ensures Val(SArr(s.arr, s.elems[i := x])) == VArr(Val(s).elems[i := Val(x)])
  {
    var s' := SArr(s.arr, s.elems[i := x]);
    assert Val(s').elems == Val(s).elems[i := Val(x)];
  }

  /** A set's outcome below the links becomes that outcome on the whole tree. */
  lemma {:induction false} LiftSetOutcome(ctx: seq<Link>, r: SetResult)
    ensures LiftSet(ctx, r) ==
      match r
      case SetOk(v) => SetOk(FillAll(ctx, v))
      case SetErr(e, v) => SetErr(e, FillAll(ctx, v))
      case SetPanic => SetPanic
    decreases |ctx|
  {
    if ctx != [] {
      LiftSetOutcome(ctx[..|ctx| - 1], SetInto(LinkSlot(ctx[|ctx| - 1]), r));
    }
  }

  lemma {:induction false} LiftDelOutcome(ctx: seq<Link>, r: DelResult)
    ensures LiftDel(ctx, r) == if r.DelOk? then DelOk(FillAll(ctx, r.tree)) else r
    decreases |ctx|
  {
    if ctx != [] {
      LiftDelOutcome(ctx[..|ctx| - 1], DelInto(LinkSlot(ctx[|ctx| - 1]), r));
    }
  }

  /** `s` is a well-formed tree held by the heap whose root is the table `tree`. */
  ghost predicate Root(s: Shape, tree: MapNode)
    reads Objs(s)
  {
    s.SMap? && s.table == tree && Valid(s)
  }

  /** The walk started at the table `tree`. */
  ghost predicate Rooted(tree: MapNode, ctx: seq<Link>, s: Shape)
  {
    if ctx == [] then s.SMap? && s.table == tree else ctx[0].LMap? && ctx[0].table == tree
  }

  /** The split tree put back together. */
  lemma Close(tree: MapNode, ctx: seq<Link>, s: Shape)
    requires Zipped(ctx, s) && Rooted(tree, ctx, s)
    ensures Root(PlugAll(ctx, s), tree) && Val(PlugAll(ctx, s)) == FillAll(ctx, Val(s))
    ensures Objs(PlugAll(ctx, s)) == AllObjs(ctx) + Objs(s)
  {
    PlugAllValid(ctx, s);
    PlugAllVal(ctx, s);
    PlugAllRoot(ctx, s);
    ShapeKinds(PlugAll(ctx, s));
  }

  /** The shapes of `make([]any, n)` after copying `es` in: `es`, then nil leaves. */
  function GrownShapes(es: seq<Shape>, n: nat): (r: seq<Shape>)
    ensures |r| == if |es| <= n then n else |es|
  {
    if |es| <= n then es + seq(n - |es|, _ => SLeaf(NNil)) else es
  }

  /** The array `b`, grown from `s` to `i + 1` elements with `v` at `i`, is a tree. */
  lemma GrowShape(s: Shape, b: array<Node>, i: nat, v: Shape)
    requires Tree(s) && s.SArr? && |s.elems| <= i && Tree(v) && Objs(v) !! Objs(s) && b !in Objs(s) + Objs(v)
    ensures var ns := SArr(b, GrownShapes(s.elems, i + 1)[i := v]);
      Tree(ns) && Objs(ns) <= {b} + Objs(s) + Objs(v)
  {
    var es := s.elems;
    var g := GrownShapes(es, i + 1)[i := v];
    forall j | 0 <= j < |g| ensures g[j] == if j == i then v else if j < |es| then es[j] else SLeaf(NNil) {
    }
    forall j | 0 <= j < |g| ensures b !in Objs(g[j]) && Tree(g[j]) && Objs(g[j]) <= Objs(s) + Objs(v) {
    }
    forall j, j' | 0 <= j < |g| && 0 <= j' < |g| && j != j' ensures Objs(g[j]) !! Objs(g[j']) {
    }
    ObjsBelow(SArr(b, g), {b} + Objs(s) + Objs(v));
  }

  /** The grown array denotes the grown value. */
  lemma GrowVal(s: Shape, b: array<Node>, i: nat, v: Shape)
    requires Tree(s) && s.SArr? && |s.elems| <= i
    ensures Val(SArr(b, GrownShapes(s.elems, i + 1)[i := v])) == VArr(Grown(Val(s).elems, i + 1)[i := Val(v)])
  {
    var es := s.elems;
    var g := GrownShapes(es, i + 1)[i := v];
    ShapeKinds(s);
    var want := Grown(Val(s).elems, i + 1)[i := Val(v)];
    forall j | 0 <= j < |g| ensures Val(g[j]) == want[j] {
      if j != i && j < |es| {
        assert g[j] == es[j];
      }
    }
    assert Val(SArr(b, g)).elems == want;
  }

  lemma GrowRep(s: Shape, b: array<Node>, i: nat, v: Shape)
    requires s.SArr? && |s.elems| <= i && Rep(s) && Rep(v) && b !in Objs(s) + Objs(v)
    requires b[..] == (s.arr[..] + seq(i + 1 - s.arr.Length, _ => NNil))[i := NodeOf(v)]
    ensures Rep(SArr(b, GrownShapes(s.elems, i + 1)[i := v]))
  {
    var es := s.elems;
    var ns := SArr(b, GrownShapes(es, i + 1)[i := v]);
    forall j | 0 <= j < |ns.elems| ensures b[j] == NodeOf(ns.elems[j]) && Rep(ns.elems[j]) {
      assert b[j] == b[..][j];
      if j < |es| {
        assert ns.elems[j] == es[j];
      }
    }
  }

  /** The array `b` holding `s`'s elements but the `i`th is a tree. */
  lemma CutShape(s: Shape, b: array<Node>, i: nat)
    requires Tree(s) && s.SArr? && i < |s.elems| && b !in Objs(s)
    ensures var ns := SArr(b, s.elems[..i] + s.elems[i + 1..]);
      Tree(ns) && Objs(ns) <= {b} + Objs(s)
  {
    var es := s.elems;
    var cut := es[..i] + es[i + 1..];
    forall j | 0 <= j < |cut| ensures cut[j] == es[if j < i then j else j + 1] {
    }
    forall j | 0 <= j < |cut| ensures b !in Objs(cut[j]) && Tree(cut[j]) && Objs(cut[j]) <= Objs(s) {
      assert cut[j] == es[if j < i then j else j + 1];
    }
    forall j, j' | 0 <= j < |cut| && 0 <= j' < |cut| && j != j' ensures Objs(cut[j]) !! Objs(cut[j']) {
      assert cut[j] == es[if j < i then j else j + 1];
      assert cut[j'] == es[if j' < i then j' else j' + 1];
    }
    ObjsBelow(SArr(b, cut), {b} + Objs(s));
  }

  /** The objects of an array shape are the array and those of its elements. */
  lemma ObjsBelow(s: Shape, bound: set<object>)
    requires s.SArr? && s.arr in bound && forall j :: 0 <= j < |s.elems| ==> Objs(s.elems[j]) <= bound
    ensures Objs(s) <= bound
  {
    forall o | o in Objs(s) ensures o in bound {
      if o != s.arr {
        var j :| 0 <= j < |s.elems| && o in Objs(s.elems[j]);
      }
    }
  }

  lemma CutVal(s: Shape, b: array<Node>, i: nat)
    requires Tree(s) && s.SArr? && i < |s.elems|
    ensures Val(SArr(b, s.elems[..i] + s.elems[i + 1..])) == RemoveAt(Val(s), Idx(i))
  {
    var es := s.elems;
    var ns := SArr(b, es[..i] + es[i + 1..]);
    ShapeKinds(s);
    var vs := Val(s).elems;
    forall j | 0 <= j < |ns.elems| ensures Val(ns).elems[j] == (vs[..i] + vs[i + 1..])[j] {
      if j < i {
        assert ns.elems[j] == es[j];
      } else {
        assert ns.elems[j] == es[j + 1];
      }
    }
  }

  lemma CutRep(s: Shape, b: array<Node>, i: nat)
    requires s.SArr? && i < |s.elems| && Rep(s) && b !in Objs(s)
    requires b[..] == s.arr[..i] + s.arr[i + 1..]
    ensures Rep(SArr(b, s.elems[..i] + s.elems[i + 1..]))
  {
    var es := s.elems;
    var ns := SArr(b, es[..i] + es[i + 1..]);
    forall j | 0 <= j < |ns.elems| ensures b[j] == NodeOf(ns.elems[j]) && Rep(ns.elems[j]) {
      assert b[j] == b[..][j];
      var j' := if j < i then j else j + 1;
      assert ns.elems[j] == es[j'];
      assert s.arr[j'] == s.arr[..][j'];
    }
  }

  /** Entry `k` of a well-formed table is a well-formed tree the table holds. */
  lemma KidValid(s: Shape, k: string)
    requires Valid(s) && s.SMap? && k in s.table.entries
    ensures k in s.kids && Valid(s.kids[k]) && s.table.entries[k] == NodeOf(s.kids[k])
    ensures Val(s).entries[k] == Val(s.kids[k]) && Objs(s.kids[k]) <= Objs(s)
  {
  }

  /** Element `j` of a well-formed array is a well-formed tree the array holds. */
  lemma ElemValid(s: Shape, j: int)
    requires Valid(s) && s.SArr? && 0 <= j < s.arr.Length
    ensures j < |s.elems| && Valid(s.elems[j]) && s.arr[j] == NodeOf(s.elems[j])
    ensures Val(s).elems[j] == Val(s.elems[j]) && Objs(s.elems[j]) <= Objs(s)
  {
  }

  /** What the visited slot held before does not matter to a set's outcome above it. */
  lemma SetIntoHole(m: map<string, Value>, k: string, x: Value, r: SetResult)
    ensures SetInto(InMap(m[k := x], k), r) == SetInto(InMap(m, k), r)
  {
    if r.SetOk? || r.SetErr? {
      assert m[k := x][k := r.tree] == m[k := r.tree];
    }
  }

  lemma SetIntoHoleArr(a: seq<Value>, i: nat, x: Value, r: SetResult)
    requires i < |a|
    ensures SetInto(InArr(a[i := x], i), r) == SetInto(InArr(a, i), r)
  {
    if r.SetOk? || r.SetErr? {
      assert a[i := x][i := r.tree] == a[i := r.tree];
    }
  }
}
