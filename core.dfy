/**
  `Lookup`, `SetValue` and `DeletePath` of `internal/utils/core.go` on the Go
  heap of module `Heap`. Each method walks the parsed path from the root
  table the way the Go loop does, keeping Go's `parents` stack, and is proved
  against the value-level function of module `Navigator` of the same name:
  the ghost `Shape` arguments name the tree the heap holds before the call,
  and the ghost `Shape` results the tree it holds after it.
*/
module Core {
  import opened Base
  import opened Document
  import opened PathParser
  import opened Navigator
  import opened Heap

  /** Go's `parentNode`: the container a step went through and the slot it took. */
  datatype ParentNode = ParentNode(container: Node, key: string, idx: int, isArray: bool)

  /** What a call returns: `nil`, an `error`, or a run-time panic. */
  datatype Outcome<E> = Done | Failed(err: E) | Panicked

  function SetReport(r: SetResult): Outcome<SetError>
  {
    match r
    case SetOk(_) => Done
    case SetErr(e, _) => Failed(e)
    case SetPanic => Panicked
  }

  function DelReport(r: DelResult): Outcome<PathError>
  {
    match r
    case DelOk(_) => Done
    case DelErr(e) => Failed(e)
    case DelPanic => Panicked
  }

  /** The parent record `p` names the same container and slot as the link `l`. */
  ghost predicate Mirrors(p: ParentNode, l: Link)
  {
    match l
    case LMap(t, _, key) => p.container == NMap(t) && p.key == key && !p.isArray
    case LArr(a, _, i) => p.container == NArr(a) && p.idx == i && p.isArray
  }

  // ---- Go built-ins on arrays

  /** `newA := make([]any, n); copy(newA, a)`. */
  method GrowArray(a: array<Node>, n: nat) returns (b: array<Node>)
    requires a.Length <= n
    ensures fresh(b) && b[..] == a[..] + seq(n - a.Length, _ => NNil)
  {
    b := new Node[n](_ => NNil);
    for j := 0 to a.Length
      invariant forall m :: 0 <= m < j ==> b[m] == a[m]
      invariant forall m :: j <= m < n ==> b[m] == NNil
    {
      b[j] := a[j];
    }
    assert b[..] == a[..] + seq(n - a.Length, _ => NNil);
  }

  /** `append(a[:i], a[i+1:]...)`, as a new array. */
  method CutArray(a: array<Node>, i: nat) returns (b: array<Node>)
    requires i < a.Length
    ensures fresh(b) && b[..] == a[..i] + a[i + 1..]
  {
    b := new Node[a.Length - 1](_ => NNil);
    for j := 0 to i
      invariant forall m :: 0 <= m < j ==> b[m] == a[m]
    {
      b[j] := a[j];
    }
    for j := i to a.Length - 1
      invariant forall m :: 0 <= m < i ==> b[m] == a[m]
      invariant forall m :: i <= m < j ==> b[m] == a[m + 1]
    {
      b[j] := a[j + 1];
    }
    assert b[..] == a[..i] + a[i + 1..];
  }

  /**
    `[]any{}` when the next token is an index, `map[string]any{}` otherwise;
    it is none of the objects in `existing`.
  */
  method NewContainer(next: Token, ghost existing: set<object>) returns (n: Node, ghost ns: Shape)
    ensures Valid(ns) && NodeOf(ns) == n && Val(ns) == Fresh(next) && fresh(Objs(ns)) && Objs(ns) !! existing
  {
    if next.Idx? {
      var a := new Node[0];
      n, ns := NArr(a), SArr(a, []);
    } else {
      var t := new MapNode();
      n, ns := NMap(t), SMap(t, map[]);
      assert Val(ns).entries == map[];
    }
  }

  /**
    The write-back `parentA[p.idx] = n` or `parentM[p.key] = n` through the
    parent record of the last link `l`: the visited node `s` is replaced by `ns`.
  */
  method WriteBack(p: ParentNode, n: Node, ghost init: seq<Link>, ghost l: Link, ghost s: Shape, ghost ns: Shape)
    requires Mirrors(p, l) && Zipped(init + [l], s)
    requires Valid(ns) && NodeOf(ns) == n && Objs(ns) !! AllObjs(init) + LinkObjs(l)
    modifies LinkObjs(l)
    ensures Zipped(init, Plug(l, ns)) && Objs(Plug(l, ns)) == LinkObjs(l) + Objs(ns)
  {
    Ascend(init + [l], s);
    assert (init + [l])[..|init|] == init;
    LinkIgnoresHole(l, s);
    if p.isArray {
      WriteBackElem(p.container.arr, p.idx, n, init, l, s, ns);
    } else {
      WriteBackEntry(p.container.table, p.key, n, init, l, s, ns);
    }
  }

  method WriteBackElem(parentA: array<Node>, idx: nat, n: Node, ghost init: seq<Link>, ghost l: Link, ghost s: Shape, ghost ns: Shape)
    requires l.LArr? && l.arr == parentA && l.index == idx && idx < |l.elems| && Zipped(init, Plug(l, s))
    requires Valid(ns) && NodeOf(ns) == n && Objs(ns) !! AllObjs(init) + LinkObjs(Unplugged(l, s))
    modifies parentA
    ensures Zipped(init, Plug(l, ns)) && Objs(Plug(l, ns)) == LinkObjs(Unplugged(l, s)) + Objs(ns)
  {
    ghost var up := Plug(l, s);
    PutElem(parentA, idx, n, init, up, ns);
    RePlug(l, s, ns);
  }

  method WriteBackEntry(parentM: MapNode, key: string, n: Node, ghost init: seq<Link>, ghost l: Link, ghost s: Shape, ghost ns: Shape)
    requires l.LMap? && l.table == parentM && l.key == key && Zipped(init, Plug(l, s))
    requires Valid(ns) && NodeOf(ns) == n && Objs(ns) !! AllObjs(init) + LinkObjs(Unplugged(l, s))
    modifies parentM
    ensures Zipped(init, Plug(l, ns)) && Objs(Plug(l, ns)) == LinkObjs(Unplugged(l, s)) + Objs(ns)
  {
    ghost var up := Plug(l, s);
    PutEntry(parentM, key, n, init, up, ns);
    RePlug(l, s, ns);
  }

  /**
    The write-back through the last parent record `p`, the whole tree then
    has `ns` where the visited node `s` was.
  */
  method WriteBackRoot(p: ParentNode, n: Node, ghost tree: MapNode, ghost ctx: seq<Link>, ghost s: Shape, ghost ns: Shape)
    returns (ghost S': Shape)
    requires ctx != [] && Mirrors(p, ctx[|ctx| - 1]) && Zipped(ctx, s) && Rooted(tree, ctx, s)
    requires Valid(ns) && NodeOf(ns) == n && Objs(ns) !! AllObjs(ctx)
    modifies AllObjs(ctx)
    ensures Root(S', tree) && Val(S') == FillAll(ctx, Val(ns))
  {
    ghost var init := ctx[..|ctx| - 1];
    ghost var l := ctx[|ctx| - 1];
    assert ctx == init + [l];
    PushObjs(init, l);
    WriteBack(p, n, init, l, s, ns);
    ghost var up := Plug(l, ns);
    PlugVal(l, ns);
    if init != [] {
      assert init[0] == ctx[0];
    }
    Close(tree, init, up);
    S' := PlugAll(init, up);
  }

  // ---- Lookup

  /** `Lookup` (core.go): the node at `path`, and whether there is one. */
  method Lookup(tree: MapNode, path: string, ghost S: Shape) returns (v: Node, found: bool, ghost vs: Shape)
    requires Root(S, tree)
    ensures Navigator.Lookup(Val(S).entries, path) == if found then Some(Val(vs)) else None
    ensures found ==> Valid(vs) && NodeOf(vs) == v
    ensures !found ==> v == NNil
  {
    ObjsAllocated(S);
    var parsed := ParsePath(path);
    if parsed.Err? || |parsed.value| == 0 {
      return NNil, false, S;
    }
    var tokens := parsed.value;
    assert Val(S) == VMap(Val(S).entries);
    assert Navigator.Lookup(Val(S).entries, path) == LookupTokens(Val(S), tokens);
    var cur := NMap(tree);
    ghost var cs := S;
    for i := 0 to |tokens|
      invariant Valid(cs) && NodeOf(cs) == cur
      invariant LookupTokens(Val(S), tokens) == LookupTokens(Val(cs), tokens[i..])
    {
      ShapeKinds(cs);
      var t := tokens[i];
      SuffixStep(tokens, i);
      if t.Key? {
        if !cur.NMap? || t.key !in cur.table.entries {
          assert LookupTokens(Val(cs), tokens[i..]) == None;
          return NNil, false, cs;
        }
        KidValid(cs, t.key);
        cur := cur.table.entries[t.key];
        cs := cs.kids[t.key];
      } else {
        if !cur.NArr? || t.index < 0 || t.index >= cur.arr.Length {
          assert LookupTokens(Val(cs), tokens[i..]) == None;
          return NNil, false, cs;
        }
        ElemValid(cs, t.index);
        cur := cur.arr[t.index];
        cs := cs.elems[t.index];
      }
    }
    return cur, true, cs;
  }

  // ---- SetValue

  /**
    The state of `SetValue`'s walk: the tree is split at the visited node
    `cs`, the walk began at `tree`, and `vs`, the tree of the value being set,
    shares nothing with the tree.
  */
  ghost predicate Walking(tree: MapNode, ctx: seq<Link>, cs: Shape, vs: Shape)
    reads AllObjs(ctx), Objs(cs)
  {
    Zipped(ctx, cs) && Rooted(tree, ctx, cs) && Objs(vs) !! AllObjs(ctx) + Objs(cs)
  }

  /** Going down into entry `k` of the visited table keeps the walk's state. */
  lemma WalkDownMap(tree: MapNode, ctx: seq<Link>, s: Shape, k: string, vs: Shape)
    requires Walking(tree, ctx, s, vs) && s.SMap? && k in s.kids
    ensures var l := LMap(s.table, s.kids, k);
      Walking(tree, ctx + [l], s.kids[k], vs) && AllObjs(ctx + [l]) + Objs(s.kids[k]) == AllObjs(ctx) + Objs(s) &&
      LinkSlot(l) == InMap(Val(s).entries, k)
  {
    var l := LMap(s.table, s.kids, k);
    DescendMap(ctx, s, k);
    PushRooted(tree, ctx, l, s, s.kids[k]);
  }

  /** Going down into element `i` of the visited array keeps the walk's state. */
  lemma WalkDownArr(tree: MapNode, ctx: seq<Link>, s: Shape, i: nat, vs: Shape)
    requires Walking(tree, ctx, s, vs) && s.SArr? && i < |s.elems|
    ensures var l := LArr(s.arr, s.elems, i);
      Walking(tree, ctx + [l], s.elems[i], vs) && AllObjs(ctx + [l]) + Objs(s.elems[i]) == AllObjs(ctx) + Objs(s) &&
      LinkSlot(l) == InArr(Val(s).elems, i)
  {
    var l := LArr(s.arr, s.elems, i);
    DescendArr(ctx, s, i);
    PushRooted(tree, ctx, l, s, s.elems[i]);
  }

  /** `m[t.Key] = []any{}` or `map[string]any{}` on the visited table. */
  method FillEntry(t: MapNode, k: string, next: Token, ghost tree: MapNode, ghost ctx: seq<Link>, ghost cs: Shape, ghost vs: Shape, ghost existing: set<object>)
    returns (child: Node, ghost up: Shape)
    requires cs.SMap? && cs.table == t && Walking(tree, ctx, cs, vs)
    requires existing == Objs(vs) + AllObjs(ctx) + Objs(cs)
    modifies t
    ensures up.SMap? && up.table == t && k in up.kids && NodeOf(up.kids[k]) == child
    ensures Walking(tree, ctx, up, vs) && Val(up) == VMap(Val(cs).entries[k := Fresh(next)])
    ensures fresh(Objs(up) - Objs(cs))
  {
    ghost var ns;
    child, ns := NewContainer(next, existing);
    MapLink(cs, k);
    assert Objs(ns) !! Objs(vs) + AllObjs(ctx) + Objs(cs);
    PutEntry(t, k, child, ctx, cs, ns);
    up := SMap(t, cs.kids[k := ns]);
    assert Objs(up) - Objs(cs) <= Objs(ns);
    ValPutMap(cs, k, ns);
  }

  /** `newA[t.Index] = []any{}` or `map[string]any{}` on the visited array. */
  method FillElem(a: array<Node>, i: nat, next: Token, ghost tree: MapNode, ghost ctx: seq<Link>, ghost cs: Shape, ghost vs: Shape, ghost existing: set<object>)
    returns (child: Node, ghost up: Shape)
    requires cs.SArr? && cs.arr == a && i < |cs.elems| && Walking(tree, ctx, cs, vs)
    requires existing == Objs(vs) + AllObjs(ctx) + Objs(cs)
    modifies a
    ensures up.SArr? && up.arr == a && |up.elems| == |cs.elems| && NodeOf(up.elems[i]) == child
    ensures Walking(tree, ctx, up, vs) && Val(up) == VArr(Val(cs).elems[i := Fresh(next)])
    ensures fresh(Objs(up) - Objs(cs))
  {
    ghost var ns;
    child, ns := NewContainer(next, existing);
    ArrLink(cs, i);
    assert Objs(ns) !! Objs(vs) + AllObjs(ctx) + Objs(cs);
    PutElem(a, i, child, ctx, cs, ns);
    up := SArr(a, cs.elems[i := ns]);
    assert Objs(up) - Objs(cs) <= Objs(ns);
    ValPutArr(cs, i, ns);
  }

  /**
    A non-terminal key step on the table `t` (core.go, the missing or nil
    entry filled with a new container): the walk moves into entry `toks[0]`.
  */
  method EnterKey(t: MapNode, toks: seq<Token>, ghost tree: MapNode, ghost ctx: seq<Link>, ghost cs: Shape, ghost vs: Shape)
    returns (child: Node, ghost l: Link, ghost cs': Shape)
    requires |toks| > 1 && toks[0].Key? && cs.SMap? && cs.table == t && Walking(tree, ctx, cs, vs)
    modifies t
    ensures l.LMap? && l.table == t && l.key == toks[0].key
    ensures Walking(tree, ctx + [l], cs', vs) && NodeOf(cs') == child
    ensures Val(cs') == Child(Val(cs), toks)
    ensures forall r :: SetInto(LinkSlot(l), r) == SetInto(InMap(Val(cs).entries, toks[0].key), r)
    ensures fresh(AllObjs(ctx + [l]) + Objs(cs') - (AllObjs(ctx) + Objs(cs)))
  {
    var k := toks[0].key;
    ShapeKinds(cs);
    if k in t.entries {
      KidValid(cs, k);
      ShapeKinds(cs.kids[k]);
    }
    if k in t.entries && t.entries[k] != NNil {
      child := t.entries[k];
      WalkDownMap(tree, ctx, cs, k, vs);
      l, cs' := LMap(t, cs.kids, k), cs.kids[k];
    } else {
      assert Child(Val(cs), toks) == Fresh(toks[1]);
      ghost var up;
      child, up := FillEntry(t, k, toks[1], tree, ctx, cs, vs, Objs(vs) + AllObjs(ctx) + Objs(cs));
      assert Val(up).entries[k] == Val(up.kids[k]);
      WalkDownMap(tree, ctx, up, k, vs);
      l, cs' := LMap(t, up.kids, k), up.kids[k];
      forall r ensures SetInto(LinkSlot(l), r) == SetInto(InMap(Val(cs).entries, k), r) {
        SetIntoHole(Val(cs).entries, k, Fresh(toks[1]), r);
      }
    }
  }

  /**
    A non-terminal index step on the array `a`, the index in bounds (core.go,
    a nil element filled with a new container): the walk moves into element `toks[0]`.
  */
  method EnterElem(a: array<Node>, toks: seq<Token>, ghost tree: MapNode, ghost ctx: seq<Link>, ghost cs: Shape, ghost vs: Shape)
    returns (child: Node, ghost l: Link, ghost cs': Shape)
    requires |toks| > 1 && toks[0].Idx? && 0 <= toks[0].index < a.Length
    requires cs.SArr? && cs.arr == a && Walking(tree, ctx, cs, vs)
    modifies a
    ensures l.LArr? && l.arr == a && l.index == toks[0].index
    ensures Walking(tree, ctx + [l], cs', vs) && NodeOf(cs') == child
    ensures Val(cs') == Child(Val(cs), toks)
    ensures forall r :: SetInto(LinkSlot(l), r) == SetInto(InArr(Val(cs).elems, toks[0].index), r)
    ensures fresh(AllObjs(ctx + [l]) + Objs(cs') - (AllObjs(ctx) + Objs(cs)))
  {
    var j := toks[0].index;
    ShapeKinds(cs);
    ElemValid(cs, j);
    ShapeKinds(cs.elems[j]);
    if a[j] != NNil {
      child := a[j];
      WalkDownArr(tree, ctx, cs, j, vs);
      l, cs' := LArr(a, cs.elems, j), cs.elems[j];
    } else {
      assert Child(Val(cs), toks) == Fresh(toks[1]);
      ghost var up;
      child, up := FillElem(a, j, toks[1], tree, ctx, cs, vs, Objs(vs) + AllObjs(ctx) + Objs(cs));
      assert Val(up).elems[j] == Val(up.elems[j]);
      WalkDownArr(tree, ctx, up, j, vs);
      l, cs' := LArr(a, up.elems, j), up.elems[j];
      forall r ensures SetInto(LinkSlot(l), r) == SetInto(InArr(Val(cs).elems, j), r) {
        SetIntoHoleArr(Val(cs).elems, j, Fresh(toks[1]), r);
      }
    }
  }

  /** A type mismatch met on the walk: the whole tree as it stands is the error's tree. */
  lemma FailAt(tree: MapNode, ctx: seq<Link>, cs: Shape, e: SetError)
    requires Zipped(ctx, cs) && Rooted(tree, ctx, cs)
    ensures Root(PlugAll(ctx, cs), tree)
    ensures LiftSet(ctx, SetErr(e, Val(cs))) == SetErr(e, Val(PlugAll(ctx, cs)))
  {
    Close(tree, ctx, cs);
    LiftSetOutcome(ctx, SetErr(e, Val(cs)));
  }

  /**
    A non-terminal index past the end of `a` (core.go): a grown copy gets a
    new container at `i`, and the write-back goes through the parent record
    of this very step, which names `a` itself at index `i`, past its end, so
    the index check of `parentA[p.idx] = newA` fails and Go panics.
    `inBounds` is the outcome of that check.
  */
  method GrowThenPanic(a: array<Node>, i: int, next: Token, parents: seq<ParentNode>) returns (inBounds: bool)
    requires a.Length <= i && parents != [] && parents[|parents| - 1] == ParentNode(NArr(a), "", i, true)
    ensures !inBounds
  {
    var newA := GrowArray(a, i + 1);
    var child, _ := NewContainer(next, {});
    newA[i] := child;
    var p := parents[|parents| - 1];
    var parentA := p.container.arr;
    inBounds := 0 <= p.idx < parentA.Length;
  }

  /**
    `newA := make([]any, i+1); copy(newA, a); newA[i] = val`: the grown
    array holds the elements of `cs`, nils, and the tree `vs` at `i`.
  */
  method GrowStore(a: array<Node>, i: nat, val: Node, ghost cs: Shape, ghost vs: Shape, ghost existing: set<object>)
    returns (newA: array<Node>, ghost ns: Shape)
    requires cs.SArr? && cs.arr == a && a.Length <= i && Valid(cs) && Valid(vs) && NodeOf(vs) == val
    requires Objs(vs) !! Objs(cs) && existing == Objs(cs) + Objs(vs)
    ensures fresh(newA) && Valid(ns) && NodeOf(ns) == NArr(newA) && Objs(ns) <= {newA} + existing
    ensures Val(ns) == VArr(Grown(Val(cs).elems, i + 1)[i := Val(vs)])
  {
    newA := GrowArray(a, i + 1);
    assert newA !in existing;
    newA[i] := val;
    ns := SArr(newA, GrownShapes(cs.elems, i + 1)[i := vs]);
    GrowShape(cs, newA, i, vs);
    GrowVal(cs, newA, i, vs);
    GrowRep(cs, newA, i, vs);
  }

  /**
    A terminal index past the end of `a` (core.go): the grown array is
    written back through the parent record `p` of the previous step.
  */
  method StoreGrown(a: array<Node>, i: nat, val: Node, p: ParentNode, ghost tree: MapNode, ghost ctx: seq<Link>, ghost cs: Shape, ghost vs: Shape, ghost existing: set<object>)
    returns (ghost S': Shape)
    requires cs.SArr? && cs.arr == a && a.Length <= i && Walking(tree, ctx, cs, vs) && Valid(vs) && NodeOf(vs) == val
    requires existing == AllObjs(ctx) + Objs(cs) + Objs(vs)
    requires ctx != [] && Mirrors(p, ctx[|ctx| - 1])
    modifies AllObjs(ctx)
    ensures Root(S', tree) && Val(S') == FillAll(ctx, VArr(Grown(Val(cs).elems, i + 1)[i := Val(vs)]))
  {
    var newA, ns := GrowStore(a, i, val, cs, vs, Objs(cs) + Objs(vs));
    S' := WriteBackRoot(p, NArr(newA), tree, ctx, cs, ns);
  }

  /** A terminal index past the end: the value-level set succeeds and the heap holds its tree. */
  method SetGrown(a: array<Node>, i: nat, val: Node, p: ParentNode, ghost tree: MapNode, ghost ctx: seq<Link>, ghost cs: Shape, ghost vs: Shape, ghost R: SetResult)
    returns (ghost S': Shape)
    requires cs.SArr? && cs.arr == a && a.Length <= i && Walking(tree, ctx, cs, vs) && Valid(vs) && NodeOf(vs) == val
    requires ctx != [] && Mirrors(p, ctx[|ctx| - 1])
    requires R == LiftSet(ctx, SetTokens(Val(cs), [Idx(i)], Val(vs)))
    modifies AllObjs(ctx)
    ensures R.SetOk? && Root(S', tree) && Val(S') == R.tree
  {
    GrownOutcome(ctx, cs, i, Val(vs), R);
    S' := StoreGrown(a, i, val, p, tree, ctx, cs, vs, AllObjs(ctx) + Objs(cs) + Objs(vs));
  }

  lemma GrownOutcome(ctx: seq<Link>, cs: Shape, i: nat, x: Value, R: SetResult)
    requires Tree(cs) && cs.SArr? && |cs.elems| <= i
    requires R == LiftSet(ctx, SetTokens(Val(cs), [Idx(i)], x))
    ensures R.SetOk? && R.tree == FillAll(ctx, VArr(Grown(Val(cs).elems, i + 1)[i := x]))
  {
    ShapeKinds(cs);
    ghost var grown := VArr(Grown(Val(cs).elems, i + 1)[i := x]);
    assert SetTokens(Val(cs), [Idx(i)], x) == SetOk(grown);
    LiftSetOutcome(ctx, SetOk(grown));
  }

  /** A terminal key (core.go): `m[t.Key] = val` on the visited table. */
  method StoreEntry(t: MapNode, k: string, val: Node, ghost tree: MapNode, ghost ctx: seq<Link>, ghost cs: Shape, ghost vs: Shape)
    returns (ghost S': Shape)
    requires cs.SMap? && cs.table == t && Walking(tree, ctx, cs, vs) && Valid(vs) && NodeOf(vs) == val
    modifies t
    ensures Root(S', tree) && Val(S') == FillAll(ctx, VMap(Val(cs).entries[k := Val(vs)]))
  {
    MapLink(cs, k);
    PutEntry(t, k, val, ctx, cs, vs);
    ghost var done := SMap(t, cs.kids[k := vs]);
    ValPutMap(cs, k, vs);
    Close(tree, ctx, done);
    S' := PlugAll(ctx, done);
  }

  /** A terminal index inside the array (core.go): `newA[t.Index] = val` on the visited array. */
  method StoreElem(a: array<Node>, i: nat, val: Node, ghost tree: MapNode, ghost ctx: seq<Link>, ghost cs: Shape, ghost vs: Shape)
    returns (ghost S': Shape)
    requires cs.SArr? && cs.arr == a && i < |cs.elems| && Walking(tree, ctx, cs, vs) && Valid(vs) && NodeOf(vs) == val
    modifies a
    ensures Root(S', tree) && Val(S') == FillAll(ctx, VArr(Val(cs).elems[i := Val(vs)]))
  {
    ArrLink(cs, i);
    PutElem(a, i, val, ctx, cs, vs);
    ghost var done := SArr(a, cs.elems[i := vs]);
    ValPutArr(cs, i, vs);
    Close(tree, ctx, done);
    S' := PlugAll(ctx, done);
  }

  /** The last token of `SetValue` (core.go): `val` goes into the visited container `cur`. */
  method SetLast(cur: Node, t: Token, val: Node, parents: seq<ParentNode>, ghost tree: MapNode, ghost ctx: seq<Link>, ghost cs: Shape, ghost vs: Shape, ghost R: SetResult)
    returns (r: Outcome<SetError>, ghost S': Shape)
    requires Walking(tree, ctx, cs, vs) && NodeOf(cs) == cur && Valid(vs) && NodeOf(vs) == val
    requires |parents| == |ctx| && (ctx != [] ==> Mirrors(parents[|ctx| - 1], ctx[|ctx| - 1]))
    requires R == LiftSet(ctx, SetTokens(Val(cs), [t], Val(vs)))
    modifies AllObjs(ctx) + Objs(cs)
    ensures r == SetReport(R) && (!r.Panicked? ==> Root(S', tree) && Val(S') == R.tree)
  {
    if t.Key? {
      r, S' := SetLastKey(cur, t, val, tree, ctx, cs, vs, R);
    } else {
      r, S' := SetLastIdx(cur, t, val, parents, tree, ctx, cs, vs, R);
    }
  }

  /** A terminal key: a type error on anything but a table, else `m[t.Key] = val`. */
  method SetLastKey(cur: Node, t: Token, val: Node, ghost tree: MapNode, ghost ctx: seq<Link>, ghost cs: Shape, ghost vs: Shape, ghost R: SetResult)
    returns (r: Outcome<SetError>, ghost S': Shape)
    requires t.Key? && Walking(tree, ctx, cs, vs) && NodeOf(cs) == cur && Valid(vs) && NodeOf(vs) == val
    requires R == LiftSet(ctx, SetTokens(Val(cs), [t], Val(vs)))
    modifies Objs(cs)
    ensures r == SetReport(R) && (!r.Panicked? ==> Root(S', tree) && Val(S') == R.tree)
  {
    ShapeKinds(cs);
    if !cur.NMap? {
      FailAt(tree, ctx, cs, NotAMap);
      return Failed(NotAMap), PlugAll(ctx, cs);
    }
    S' := StoreEntry(cur.table, t.key, val, tree, ctx, cs, vs);
    LiftSetOutcome(ctx, SetOk(VMap(Val(cs).entries[t.key := Val(vs)])));
    return Done, S';
  }

  /**
    A terminal index: a type error on anything but an array; growth past the
    end, written back through the last parent record; a panic on a negative
    index; else `newA[t.Index] = val` in place.
  */
  method SetLastIdx(cur: Node, t: Token, val: Node, parents: seq<ParentNode>, ghost tree: MapNode, ghost ctx: seq<Link>, ghost cs: Shape, ghost vs: Shape, ghost R: SetResult)
    returns (r: Outcome<SetError>, ghost S': Shape)
    requires t.Idx? && Walking(tree, ctx, cs, vs) && NodeOf(cs) == cur && Valid(vs) && NodeOf(vs) == val
    requires |parents| == |ctx| && (ctx != [] ==> Mirrors(parents[|ctx| - 1], ctx[|ctx| - 1]))
    requires R == LiftSet(ctx, SetTokens(Val(cs), [t], Val(vs)))
    modifies AllObjs(ctx) + Objs(cs)
    ensures r == SetReport(R) && (!r.Panicked? ==> Root(S', tree) && Val(S') == R.tree)
  {
    ShapeKinds(cs);
    if !cur.NArr? {
      FailAt(tree, ctx, cs, NotAnArray);
      return Failed(NotAnArray), PlugAll(ctx, cs);
    }
    var a := cur.arr;
    if t.index >= a.Length {
      // Go guards the write-back with `len(parents) > 0`; an index step never starts at the root table
      assert ctx != [];
      S' := SetGrown(a, t.index, val, parents[|parents| - 1], tree, ctx, cs, vs, R);
      return Done, S';
    }
    if t.index < 0 {
      // `newA[t.Index] = val` with a negative index
      LiftSetOutcome(ctx, SetPanic);
      return Panicked, cs;
    }
    S' := StoreElem(a, t.index, val, tree, ctx, cs, vs);
    LiftSetOutcome(ctx, SetOk(VArr(Val(cs).elems[t.index := Val(vs)])));
    return Done, S';
  }

  /** The call stopped with outcome `r` where the value-level walk has outcome `R`; the tree is then `S'`. */
  ghost predicate Stopped(tree: MapNode, R: SetResult, r: Outcome<SetError>, S': Shape)
    reads Objs(S')
  {
    r == SetReport(R) && (!r.Panicked? ==> Root(S', tree) && Val(S') == R.tree)
  }

  /**
    A step of the walk moved from `cs` down to `cs'` over the first of `toks`,
    pushing its parent record, with the outcome of the whole call unchanged.
  */
  ghost predicate Advanced(tree: MapNode, vs: Shape, toks: seq<Token>, ctx: seq<Link>, cs: Shape,
                           ctx': seq<Link>, cs': Shape, cur': Node, parents': seq<ParentNode>, made: set<object>)
    requires |toks| > 1
    reads AllObjs(ctx'), Objs(cs')
  {
    Walking(tree, ctx', cs', vs) && NodeOf(cs') == cur' &&
    |parents'| == |ctx'| && (ctx' != [] ==> Mirrors(parents'[|ctx'| - 1], ctx'[|ctx'| - 1])) &&
    AllObjs(ctx') + Objs(cs') <= AllObjs(ctx) + Objs(cs) + made &&
    LiftSet(ctx, SetTokens(Val(cs), toks, Val(vs))) == LiftSet(ctx', SetTokens(Val(cs'), toks[1..], Val(vs)))
  }

  /** A step down the link `l` leaves the outcome of the whole call unchanged. */
  lemma LiftStep(ctx: seq<Link>, l: Link, slot: Slot, cur: Value, toks: seq<Token>, v: Value, next: Value)
    requires toks != [] && |toks| > 1
    requires SetTokens(cur, toks, v) == SetInto(slot, SetTokens(next, toks[1..], v))
    requires forall r :: SetInto(LinkSlot(l), r) == SetInto(slot, r)
    ensures LiftSet(ctx, SetTokens(cur, toks, v)) == LiftSet(ctx + [l], SetTokens(next, toks[1..], v))
  {
    PushLiftSet(ctx, l, SetTokens(next, toks[1..], v));
  }

  /**
    A non-terminal key step of `SetValue` (core.go): a value other than a
    table is an error (`Some`); otherwise the parent record is pushed and the
    walk moves into the entry (`None`).
  */
  method KeyStep(cur: Node, toks: seq<Token>, parents: seq<ParentNode>, ghost tree: MapNode, ghost ctx: seq<Link>, ghost cs: Shape, ghost vs: Shape)
    returns (stop: Option<Outcome<SetError>>, ghost S': Shape, child: Node, parents': seq<ParentNode>, ghost ctx': seq<Link>, ghost cs': Shape, ghost made: set<object>)
    requires |toks| > 1 && toks[0].Key? && Walking(tree, ctx, cs, vs) && NodeOf(cs) == cur && |parents| == |ctx|
    modifies Objs(cs)
    ensures fresh(made)
    ensures stop.Some? ==> Stopped(tree, LiftSet(ctx, SetTokens(Val(cs), toks, Val(vs))), stop.value, S')
    ensures stop.None? ==> Advanced(tree, vs, toks, ctx, cs, ctx', cs', child, parents', made)
  {
    ShapeKinds(cs);
    child, parents', ctx', cs', S', made := NNil, parents, ctx, cs, cs, {};
    if !cur.NMap? {
      FailAt(tree, ctx, cs, NotAMap);
      return Some(Failed(NotAMap)), PlugAll(ctx, cs), child, parents', ctx', cs', made;
    }
    var k := toks[0].key;
    parents' := parents + [ParentNode(cur, k, 0, false)];
    ghost var l;
    child, l, cs' := EnterKey(cur.table, toks, tree, ctx, cs, vs);
    LiftStep(ctx, l, InMap(Val(cs).entries, k), Val(cs), toks, Val(vs), Val(cs'));
    ctx' := ctx + [l];
    assert ctx'[|ctx|] == l;
    made := AllObjs(ctx') + Objs(cs') - (AllObjs(ctx) + Objs(cs));
    stop := None;
  }

  /**
    A non-terminal index step of `SetValue` (core.go): a value other than an
    array is an error, and an index past the end or below zero panics
    (`Some`); otherwise the parent record is pushed and the walk moves into
    the element (`None`).
  */
  method IdxStep(cur: Node, toks: seq<Token>, parents: seq<ParentNode>, ghost tree: MapNode, ghost ctx: seq<Link>, ghost cs: Shape, ghost vs: Shape)
    returns (stop: Option<Outcome<SetError>>, ghost S': Shape, child: Node, parents': seq<ParentNode>, ghost ctx': seq<Link>, ghost cs': Shape, ghost made: set<object>)
    requires |toks| > 1 && toks[0].Idx? && Walking(tree, ctx, cs, vs) && NodeOf(cs) == cur && |parents| == |ctx|
    modifies Objs(cs)
    ensures fresh(made)
    ensures stop.Some? ==> Stopped(tree, LiftSet(ctx, SetTokens(Val(cs), toks, Val(vs))), stop.value, S')
    ensures stop.None? ==> Advanced(tree, vs, toks, ctx, cs, ctx', cs', child, parents', made)
  {
    ShapeKinds(cs);
    child, parents', ctx', cs', S', made := NNil, parents, ctx, cs, cs, {};
    if !cur.NArr? {
      FailAt(tree, ctx, cs, NotAnArray);
      return Some(Failed(NotAnArray)), PlugAll(ctx, cs), child, parents', ctx', cs', made;
    }
    var a := cur.arr;
    var j := toks[0].index;
    parents' := parents + [ParentNode(cur, "", j, true)];
    if j >= a.Length {
      var _ := GrowThenPanic(a, j, toks[1], parents');
      LiftSetOutcome(ctx, SetPanic);
      return Some(Panicked), S', child, parents', ctx', cs', made;
    }
    if j < 0 {
      // `newA[t.Index]` with a negative index
      LiftSetOutcome(ctx, SetPanic);
      return Some(Panicked), S', child, parents', ctx', cs', made;
    }
    ghost var l;
    child, l, cs' := EnterElem(a, toks, tree, ctx, cs, vs);
    LiftStep(ctx, l, InArr(Val(cs).elems, j), Val(cs), toks, Val(vs), Val(cs'));
    ctx' := ctx + [l];
    assert ctx'[|ctx|] == l;
    made := AllObjs(ctx') + Objs(cs') - (AllObjs(ctx) + Objs(cs));
    stop := None;
  }

  /** One non-terminal token of `SetValue`'s loop, by its kind. */
  method Step(cur: Node, toks: seq<Token>, parents: seq<ParentNode>, ghost tree: MapNode, ghost ctx: seq<Link>, ghost cs: Shape, ghost vs: Shape)
    returns (stop: Option<Outcome<SetError>>, ghost S': Shape, child: Node, parents': seq<ParentNode>, ghost ctx': seq<Link>, ghost cs': Shape, ghost made: set<object>)
    requires |toks| > 1 && Walking(tree, ctx, cs, vs) && NodeOf(cs) == cur && |parents| == |ctx|
    modifies Objs(cs)
    ensures fresh(made)
    ensures stop.Some? ==> Stopped(tree, LiftSet(ctx, SetTokens(Val(cs), toks, Val(vs))), stop.value, S')
    ensures stop.None? ==> Advanced(tree, vs, toks, ctx, cs, ctx', cs', child, parents', made)
  {
    if toks[0].Key? {
      stop, S', child, parents', ctx', cs', made := KeyStep(cur, toks, parents, tree, ctx, cs, vs);
    } else {
      stop, S', child, parents', ctx', cs', made := IdxStep(cur, toks, parents, tree, ctx, cs, vs);
    }
  }

  /** The invariant of `SetValue`'s loop, before the token `tokens[i]`. */
  ghost predicate SetInv(tree: MapNode, tokens: seq<Token>, i: int, S: Shape, vs: Shape, cur: Node,
                         parents: seq<ParentNode>, ctx: seq<Link>, cs: Shape, created: set<object>)
    reads AllObjs(ctx), Objs(cs)
  {
    0 <= i < |tokens| &&
    Walking(tree, ctx, cs, vs) && NodeOf(cs) == cur &&
    |parents| == |ctx| && (ctx != [] ==> Mirrors(parents[|ctx| - 1], ctx[|ctx| - 1])) &&
    AllObjs(ctx) + Objs(cs) <= Objs(S) + created &&
    SetTokens(Val(S), tokens, Val(vs)) == LiftSet(ctx, SetTokens(Val(cs), tokens[i..], Val(vs)))
  }

  /** One step of the loop keeps its invariant. */
  lemma InvStep(tree: MapNode, tokens: seq<Token>, i: int, S: Shape, vs: Shape, ctx: seq<Link>, cs: Shape, created: set<object>,
                ctx': seq<Link>, cs': Shape, cur': Node, parents': seq<ParentNode>, made: set<object>)
    requires 0 <= i < |tokens| - 1
    requires AllObjs(ctx) + Objs(cs) <= Objs(S) + created
    requires SetTokens(Val(S), tokens, Val(vs)) == LiftSet(ctx, SetTokens(Val(cs), tokens[i..], Val(vs)))
    requires Advanced(tree, vs, tokens[i..], ctx, cs, ctx', cs', cur', parents', made)
    ensures SetInv(tree, tokens, i + 1, S, vs, cur', parents', ctx', cs', created + made)
  {
    SuffixStep(tokens, i);
  }

  /**
    The loop of `SetValue` over the non-terminal tokens of the parsed,
    non-empty path: it stops with the call's outcome (`Some`), or reaches the
    container the last token addresses (`None`).
  */
  method SetLoop(tree: MapNode, tokens: seq<Token>, ghost S: Shape, ghost vs: Shape)
    returns (stop: Option<Outcome<SetError>>, ghost S': Shape, cur: Node, parents: seq<ParentNode>, ghost ctx: seq<Link>, ghost cs: Shape, ghost created: set<object>)
    requires tokens != [] && Root(S, tree) && Objs(vs) !! Objs(S)
    modifies Objs(S)
    ensures fresh(created)
    ensures stop.Some? ==> Stopped(tree, SetTokens(Val(S), tokens, Val(vs)), stop.value, S')
    ensures stop.None? ==> SetInv(tree, tokens, |tokens| - 1, S, vs, cur, parents, ctx, cs, created)
  {
    parents, cur, ctx, cs, created, S' := [], NMap(tree), [], S, {}, S;
    var i := 0;
    WholeSuffix(tokens);
    while i < |tokens| - 1
      invariant fresh(created)
      invariant SetInv(tree, tokens, i, S, vs, cur, parents, ctx, cs, created)
    {
      var child;
      ghost var made;
      assert AllObjs(ctx) + Objs(cs) <= Objs(S) + created;
      assert SetTokens(Val(S), tokens, Val(vs)) == LiftSet(ctx, SetTokens(Val(cs), tokens[i..], Val(vs)));
      ghost var ctx0, cs0 := ctx, cs;
      stop, S', child, parents, ctx, cs, made := Step(cur, tokens[i..], parents, tree, ctx, cs, vs);
      if stop.Some? {
        return;
      }
      InvStep(tree, tokens, i, S, vs, ctx0, cs0, created, ctx, cs, child, parents, made);
      created := created + made;
      cur, i := child, i + 1;
    }
    stop := None;
  }

  /** The loop of `SetValue`, then its last token. */
  method SetWalk(tree: MapNode, tokens: seq<Token>, val: Node, ghost S: Shape, ghost vs: Shape)
    returns (r: Outcome<SetError>, ghost S': Shape)
    requires tokens != [] && Root(S, tree) && Valid(vs) && NodeOf(vs) == val && Objs(vs) !! Objs(S)
    modifies Objs(S)
    ensures var R := SetTokens(Val(S), tokens, Val(vs));
      r == SetReport(R) && (!r.Panicked? ==> Root(S', tree) && Val(S') == R.tree)
  {
    ObjsAllocated(vs);
    var stop, cur, parents;
    ghost var ctx, cs, created;
    stop, S', cur, parents, ctx, cs, created := SetLoop(tree, tokens, S, vs);
    if stop.Some? {
      return stop.value, S';
    }
    assert Valid(vs);
    LastSuffix(tokens);
    r, S' := SetLast(cur, tokens[|tokens| - 1], val, parents, tree, ctx, cs, vs, SetTokens(Val(S), tokens, Val(vs)));
  }

  /**
    `SetValue` (core.go): store `val` at `path`, creating the missing
    containers on the way and growing an array whose index is past its end.
    `vs` is the tree of `val`, which shares nothing with `tree`.
  */
  method SetValue(tree: MapNode, path: string, val: Node, ghost S: Shape, ghost vs: Shape)
    returns (r: Outcome<SetError>, ghost S': Shape)
    requires Root(S, tree) && Valid(vs) && NodeOf(vs) == val && Objs(vs) !! Objs(S)
    modifies Objs(S)
    ensures r == SetReport(Set(Val(S).entries, path, Val(vs)))
    ensures !r.Panicked? ==> Root(S', tree) && Val(S') == Set(Val(S).entries, path, Val(vs)).tree
    ensures r.Failed? ==> Val(S') == Val(S)
  {
    SetFailsCleanly(Val(S).entries, path, Val(vs));
    ObjsAllocated(S);
    ObjsAllocated(vs);
    var parsed := ParsePath(path);
    if parsed.Err? {
      return Failed(PathSyntax(parsed.error)), S;
    }
    var tokens := parsed.value;
    if |tokens| == 0 {
      return Failed(EmptyPath), S;
    }
    assert Val(S) == VMap(Val(S).entries);
    r, S' := SetWalk(tree, tokens, val, S, vs);
  }

  // ---- DeletePath

  /**
    `DeletePath` stopped with outcome `r` where the value-level walk has
    outcome `R`; the tree is then `S'`, and it is `S` unless something was deleted.
  */
  ghost predicate DelStopped(tree: MapNode, S: Shape, R: DelResult, r: Outcome<PathError>, S': Shape)
    reads Objs(S')
  {
    r == DelReport(R) && (!r.Panicked? ==> Root(S', tree) && Val(S') == if R.DelOk? then R.tree else Val(S))
  }

  /** Going down into entry `k` without changing anything: the split tree is still `S`. */
  lemma VisitMap(tree: MapNode, ctx: seq<Link>, s: Shape, k: string)
    requires Zipped(ctx, s) && Rooted(tree, ctx, s) && s.SMap? && k in s.kids
    ensures var l := LMap(s.table, s.kids, k);
      Zipped(ctx + [l], s.kids[k]) && Rooted(tree, ctx + [l], s.kids[k]) &&
      PlugAll(ctx + [l], s.kids[k]) == PlugAll(ctx, s) && LinkSlot(l) == InMap(Val(s).entries, k)
  {
    var l := LMap(s.table, s.kids, k);
    DescendMap(ctx, s, k);
    PushRooted(tree, ctx, l, s, s.kids[k]);
    PushPlug(ctx, l, s.kids[k]);
    PlugBack(s, k);
  }

  /** Going down into element `i` without changing anything. */
  lemma VisitArr(tree: MapNode, ctx: seq<Link>, s: Shape, i: nat)
    requires Zipped(ctx, s) && Rooted(tree, ctx, s) && s.SArr? && i < |s.elems|
    ensures var l := LArr(s.arr, s.elems, i);
      Zipped(ctx + [l], s.elems[i]) && Rooted(tree, ctx + [l], s.elems[i]) &&
      PlugAll(ctx + [l], s.elems[i]) == PlugAll(ctx, s) && LinkSlot(l) == InArr(Val(s).elems, i)
  {
    var l := LArr(s.arr, s.elems, i);
    DescendArr(ctx, s, i);
    PushRooted(tree, ctx, l, s, s.elems[i]);
    PushPlug(ctx, l, s.elems[i]);
    assert Plug(l, s.elems[i]) == s;
  }

  /** Nothing deleted below the links: nothing deleted in the whole tree. */
  lemma Untouched(ctx: seq<Link>, s: Shape, S: Shape)
    requires PlugAll(ctx, s) == S
    ensures LiftDel(ctx, DelOk(Val(s))) == DelOk(Val(S))
  {
    LiftDelOutcome(ctx, DelOk(Val(s)));
    PlugAllVal(ctx, s);
  }

  /** The invariant of `DeletePath`'s loop, before the token `tokens[i]`. */
  ghost predicate DelInv(tree: MapNode, tokens: seq<Token>, i: int, S: Shape, cur: Node,
                         parents: seq<ParentNode>, ctx: seq<Link>, cs: Shape, gone: bool)
    reads AllObjs(ctx), Objs(cs)
  {
    0 <= i < |tokens| &&
    Zipped(ctx, cs) && Rooted(tree, ctx, cs) && PlugAll(ctx, cs) == S &&
    (gone ==> cur == NNil && DeleteTokens(Val(S), tokens) == DelOk(Val(S))) &&
    (!gone ==>
      NodeOf(cs) == cur && |parents| == |ctx| && (ctx != [] ==> Mirrors(parents[|ctx| - 1], ctx[|ctx| - 1])) &&
      DeleteTokens(Val(S), tokens) == LiftDel(ctx, DeleteTokens(Val(cs), tokens[i..])))
  }

  /** The call returns `nil` where it is: nothing was deleted. */
  lemma DelNoop(tree: MapNode, tokens: seq<Token>, i: int, S: Shape, cur: Node,
                parents: seq<ParentNode>, ctx: seq<Link>, cs: Shape, gone: bool)
    requires DelInv(tree, tokens, i, S, cur, parents, ctx, cs, gone)
    requires !gone ==> DeleteTokens(Val(cs), tokens[i..]) == DelOk(Val(cs))
    ensures DelStopped(tree, S, DeleteTokens(Val(S), tokens), Done, S)
  {
    Close(tree, ctx, cs);
    Untouched(ctx, cs, S);
  }

  /**
    A non-terminal key step of `DeletePath` (core.go): the parent record is
    pushed; a value other than a table returns `nil` (`Some`); otherwise the
    walk moves into the entry, or to `nil` when the key is missing (`None`).
  */
  method DelKeyStep(cur: Node, tokens: seq<Token>, i: nat, parents: seq<ParentNode>, ghost tree: MapNode, ghost S: Shape, ghost ctx: seq<Link>, ghost cs: Shape, ghost gone: bool)
    returns (stop: Option<Outcome<PathError>>, cur': Node, parents': seq<ParentNode>, ghost ctx': seq<Link>, ghost cs': Shape, ghost gone': bool)
    requires i < |tokens| - 1 && tokens[i].Key? && DelInv(tree, tokens, i, S, cur, parents, ctx, cs, gone)
    ensures stop.Some? ==> DelStopped(tree, S, DeleteTokens(Val(S), tokens), stop.value, S)
    ensures stop.None? ==> DelInv(tree, tokens, i + 1, S, cur', parents', ctx', cs', gone')
  {
    var k := tokens[i].key;
    ghost var toks := tokens[i..];
    SuffixStep(tokens, i);
    ShapeKinds(cs);
    parents' := parents + [ParentNode(cur, k, 0, false)];
    ctx', cs', gone' := ctx, cs, gone;
    if !cur.NMap? {
      DelNoop(tree, tokens, i, S, cur, parents, ctx, cs, gone);
      return Some(Done), cur, parents', ctx', cs', gone';
    }
    if k !in cur.table.entries {
      Untouched(ctx, cs, S);
      return None, NNil, parents', ctx', cs', true;
    }
    KidValid(cs, k);
    ghost var l := LMap(cs.table, cs.kids, k);
    VisitMap(tree, ctx, cs, k);
    PushLiftDel(ctx, l, DeleteTokens(Val(cs.kids[k]), toks[1..]));
    assert (ctx + [l])[|ctx|] == l;
    return None, cur.table.entries[k], parents', ctx + [l], cs.kids[k], false;
  }

  /**
    A non-terminal index step of `DeletePath` (core.go): the parent record is
    pushed; a value other than an array or an index past the end returns
    `nil` and a negative index panics (`Some`); otherwise the walk moves into
    the element (`None`).
  */
  method DelIdxStep(cur: Node, tokens: seq<Token>, i: nat, parents: seq<ParentNode>, ghost tree: MapNode, ghost S: Shape, ghost ctx: seq<Link>, ghost cs: Shape, ghost gone: bool)
    returns (stop: Option<Outcome<PathError>>, cur': Node, parents': seq<ParentNode>, ghost ctx': seq<Link>, ghost cs': Shape, ghost gone': bool)
    requires i < |tokens| - 1 && tokens[i].Idx? && DelInv(tree, tokens, i, S, cur, parents, ctx, cs, gone)
    ensures stop.Some? ==> DelStopped(tree, S, DeleteTokens(Val(S), tokens), stop.value, S)
    ensures stop.None? ==> DelInv(tree, tokens, i + 1, S, cur', parents', ctx', cs', gone')
  {
    var j := tokens[i].index;
    ghost var toks := tokens[i..];
    SuffixStep(tokens, i);
    ShapeKinds(cs);
    parents' := parents + [ParentNode(cur, "", j, true)];
    ctx', cs', gone' := ctx, cs, gone;
    if !cur.NArr? || j >= cur.arr.Length {
      DelNoop(tree, tokens, i, S, cur, parents, ctx, cs, gone);
      return Some(Done), cur, parents', ctx', cs', gone';
    }
    if j < 0 {
      // `a[t.Index]` with a negative index
      LiftDelOutcome(ctx, DelPanic);
      return Some(Panicked), cur, parents', ctx', cs', gone';
    }
    ElemValid(cs, j);
    ghost var l := LArr(cs.arr, cs.elems, j);
    VisitArr(tree, ctx, cs, j);
    PushLiftDel(ctx, l, DeleteTokens(Val(cs.elems[j]), toks[1..]));
    assert (ctx + [l])[|ctx|] == l;
    return None, cur.arr[j], parents', ctx + [l], cs.elems[j], false;
  }

  /** One non-terminal token of `DeletePath`'s loop, by its kind. */
  method DelStep(cur: Node, tokens: seq<Token>, i: nat, parents: seq<ParentNode>, ghost tree: MapNode, ghost S: Shape, ghost ctx: seq<Link>, ghost cs: Shape, ghost gone: bool)
    returns (stop: Option<Outcome<PathError>>, cur': Node, parents': seq<ParentNode>, ghost ctx': seq<Link>, ghost cs': Shape, ghost gone': bool)
    requires i < |tokens| - 1 && DelInv(tree, tokens, i, S, cur, parents, ctx, cs, gone)
    ensures stop.Some? ==> DelStopped(tree, S, DeleteTokens(Val(S), tokens), stop.value, S)
    ensures stop.None? ==> DelInv(tree, tokens, i + 1, S, cur', parents', ctx', cs', gone')
  {
    if tokens[i].Key? {
      stop, cur', parents', ctx', cs', gone' := DelKeyStep(cur, tokens, i, parents, tree, S, ctx, cs, gone);
    } else {
      stop, cur', parents', ctx', cs', gone' := DelIdxStep(cur, tokens, i, parents, tree, S, ctx, cs, gone);
    }
  }

  /** The loop of `DeletePath` over the non-terminal tokens of the parsed, non-empty path. */
  method DelLoop(tree: MapNode, tokens: seq<Token>, ghost S: Shape)
    returns (stop: Option<Outcome<PathError>>, cur: Node, parents: seq<ParentNode>, ghost ctx: seq<Link>, ghost cs: Shape, ghost gone: bool)
    requires tokens != [] && Root(S, tree)
    ensures stop.Some? ==> DelStopped(tree, S, DeleteTokens(Val(S), tokens), stop.value, S)
    ensures stop.None? ==> DelInv(tree, tokens, |tokens| - 1, S, cur, parents, ctx, cs, gone)
  {
    parents, cur, ctx, cs, gone := [], NMap(tree), [], S, false;
    var i := 0;
    WholeSuffix(tokens);
    while i < |tokens| - 1
      invariant DelInv(tree, tokens, i, S, cur, parents, ctx, cs, gone)
    {
      stop, cur, parents, ctx, cs, gone := DelStep(cur, tokens, i, parents, tree, S, ctx, cs, gone);
      if stop.Some? {
        return;
      }
      i := i + 1;
    }
    stop := None;
  }

  /** A terminal key (core.go): `delete(m, t.Key)` on the visited table. */
  method DelEntry(t: MapNode, k: string, ghost tree: MapNode, ghost ctx: seq<Link>, ghost cs: Shape)
    returns (ghost S': Shape)
    requires cs.SMap? && cs.table == t && Zipped(ctx, cs) && Rooted(tree, ctx, cs)
    modifies t
    ensures Root(S', tree) && Val(S') == FillAll(ctx, VMap(Val(cs).entries - {k}))
  {
    RemoveEntry(t, k, ctx, cs);
    ghost var done := SMap(t, cs.kids - {k});
    Close(tree, ctx, done);
    S' := PlugAll(ctx, done);
  }

  /** `newA := append(a[:i], a[i+1:]...)`: the array without its `i`th element. */
  method CutStore(a: array<Node>, i: nat, ghost cs: Shape, ghost existing: set<object>)
    returns (newA: array<Node>, ghost ns: Shape)
    requires cs.SArr? && cs.arr == a && i < a.Length && Valid(cs) && existing == Objs(cs)
    ensures fresh(newA) && Valid(ns) && NodeOf(ns) == NArr(newA) && Objs(ns) <= {newA} + existing
    ensures Val(ns) == RemoveAt(Val(cs), Idx(i))
  {
    newA := CutArray(a, i);
    assert newA !in existing;
    ns := SArr(newA, cs.elems[..i] + cs.elems[i + 1..]);
    CutShape(cs, newA, i);
    CutVal(cs, newA, i);
    CutRep(cs, newA, i);
  }

  /**
    A terminal index inside the array (core.go): the shortened array is
    written back through the parent record `p` of the previous step.
  */
  method CutElem(a: array<Node>, i: nat, p: ParentNode, ghost tree: MapNode, ghost ctx: seq<Link>, ghost cs: Shape, ghost existing: set<object>)
    returns (ghost S': Shape)
    requires cs.SArr? && cs.arr == a && i < a.Length && Zipped(ctx, cs) && Rooted(tree, ctx, cs)
    requires existing == AllObjs(ctx) + Objs(cs)
    requires ctx != [] && Mirrors(p, ctx[|ctx| - 1])
    modifies AllObjs(ctx)
    ensures Root(S', tree) && Val(S') == FillAll(ctx, RemoveAt(Val(cs), Idx(i)))
  {
    var newA, ns := CutStore(a, i, cs, Objs(cs));
    S' := WriteBackRoot(p, NArr(newA), tree, ctx, cs, ns);
  }

  /** The last token of `DeletePath` (core.go). */
  method DelLast(cur: Node, t: Token, parents: seq<ParentNode>, ghost tree: MapNode, ghost tokens: seq<Token>, ghost S: Shape,
                 ghost ctx: seq<Link>, ghost cs: Shape, ghost gone: bool)
    returns (r: Outcome<PathError>, ghost S': Shape)
    requires tokens != [] && t == tokens[|tokens| - 1]
    requires DelInv(tree, tokens, |tokens| - 1, S, cur, parents, ctx, cs, gone)
    modifies Objs(S)
    ensures DelStopped(tree, S, DeleteTokens(Val(S), tokens), r, S')
  {
    LastSuffix(tokens);
    Close(tree, ctx, cs);
    ShapeKinds(cs);
    if t.Key? {
      if cur.NMap? {
        S' := DelEntry(cur.table, t.key, tree, ctx, cs);
        LiftDelOutcome(ctx, DelOk(VMap(Val(cs).entries - {t.key})));
        return Done, S';
      }
      DelNoop(tree, tokens, |tokens| - 1, S, cur, parents, ctx, cs, gone);
      return Done, S;
    }
    if !cur.NArr? || t.index < 0 || t.index >= cur.arr.Length {
      DelNoop(tree, tokens, |tokens| - 1, S, cur, parents, ctx, cs, gone);
      return Done, S;
    }
    // Go guards the write-back with `len(parents) > 0`; an index step never starts at the root table
    assert ctx != [];
    S' := CutElem(cur.arr, t.index, parents[|parents| - 1], tree, ctx, cs, AllObjs(ctx) + Objs(cs));
    LiftDelOutcome(ctx, DelOk(RemoveAt(Val(cs), t)));
    return Done, S';
  }

  /**
    `DeletePath` (core.go): remove the entry or element at `path`. Only a
    malformed path is an error; a path that leads nowhere changes nothing.
  */
  method DeletePath(tree: MapNode, path: string, ghost S: Shape)
    returns (r: Outcome<PathError>, ghost S': Shape)
    requires Root(S, tree)
    modifies Objs(S)
    ensures r == DelReport(Delete(Val(S).entries, path))
    ensures !r.Panicked? ==>
              Root(S', tree) &&
              Val(S') == (if Delete(Val(S).entries, path).DelOk? then Delete(Val(S).entries, path).tree else Val(S))
  {
    ObjsAllocated(S);
    var parsed := ParsePath(path);
    if parsed.Err? {
      return Failed(parsed.error), S;
    }
    var tokens := parsed.value;
    assert Val(S) == VMap(Val(S).entries);
    if |tokens| == 0 {
      return Done, S;
    }
    var stop, cur, parents;
    ghost var ctx, cs, gone;
    stop, cur, parents, ctx, cs, gone := DelLoop(tree, tokens, S);
    if stop.Some? {
      return stop.value, S;
    }
    r, S' := DelLast(cur, tokens[|tokens| - 1], parents, tree, tokens, S, ctx, cs, gone);
  }
}
