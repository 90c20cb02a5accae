/**
  `Lookup`, `SetValue` and `DeletePath` of `internal/utils/core.go`, stated on
  values: the tree is a `Value` and each operation is a recursive function of
  the tree and the parsed path. These functions are the specification the
  heap-level methods of module `Core` are proved against; the lemmas below
  state what the operations promise.
*/
module Navigator {
  import opened Base
  import opened Document
  import opened PathParser

  /** Why `SetValue` returns an error. */
  datatype SetError =
    | PathSyntax(cause: PathError)
    /** The path held no token ("路径不能为空"). */
    | EmptyPath
    /** A key step met something other than a table. */
    | NotAMap
    /** An index step met something other than an array. */
    | NotAnArray

  /**
    What a call of `SetValue` does: success, an error return, or a Go run-time
    panic (an index out of range). `tree` is the tree after the call.
  */
  datatype SetResult = SetOk(tree: Value) | SetErr(err: SetError, tree: Value) | SetPanic

  /** What a call of `DeletePath` does. */
  datatype DelResult = DelOk(tree: Value) | DelErr(err: PathError) | DelPanic

  /**
    A slot of a container with the value that sits in it replaced: a table
    with one key set, or an array with one element set. This is what Go's
    `parentNode` names (container plus key or index).
  */
  datatype Slot = InMap(entries: map<string, Value>, key: string) | InArr(elems: seq<Value>, index: nat)

  function Fill(s: Slot, v: Value): Value
  {
    match s
    case InMap(m, k) => VMap(m[k := v])
    case InArr(a, i) => if i < |a| then VArr(a[i := v]) else VArr(a)
  }

  // ---- Lookup (core.go:11-45)

  function LookupTokens(cur: Value, toks: seq<Token>): (r: Option<Value>)
    ensures toks == [] ==> r == Some(cur)
    ensures toks != [] && r.Some? && toks[0].Key? ==> cur.VMap? && toks[0].key in cur.entries
    ensures toks != [] && r.Some? && toks[0].Idx? ==> cur.VArr? && 0 <= toks[0].index < |cur.elems|
    decreases |toks|
  {
    if toks == [] then Some(cur)
    else match toks[0]
      case Key(k) =>
        if cur.VMap? && k in cur.entries then LookupTokens(cur.entries[k], toks[1..]) else None
      case Idx(i) =>
        if cur.VArr? && 0 <= i < |cur.elems| then LookupTokens(cur.elems[i], toks[1..]) else None
  }

  function Lookup(tree: map<string, Value>, path: string): (r: Option<Value>)
    ensures r.Some? ==> ParseSpec(path).Ok? && ParseSpec(path).value != []
  {
    match ParseSpec(path)
    case Err(_) => None
    case Ok(ts) => if ts == [] then None else LookupTokens(VMap(tree), ts)
  }

  // ---- SetValue (core.go:54-193)

  /** The empty container `SetValue` creates in front of token `next`. */
  function Fresh(next: Token): (r: Value)
    ensures Suits(r, next)
    ensures r.VMap? ==> r.entries == map[]
    ensures r.VArr? ==> r.elems == []
  {
    if next.Idx? then VArr([]) else VMap(map[])
  }

  /** `a` copied into a new array of length `n`; the extra slots are `nil` (`make` + `copy`). */
  function Grown(a: seq<Value>, n: nat): (r: seq<Value>)
    requires |a| <= n
    ensures |r| == n && r[..|a|] == a
    ensures forall j :: |a| <= j < n ==> r[j] == VNil
  {
    a + seq(n - |a|, _ => VNil)
  }

  function SetInto(s: Slot, r: SetResult): SetResult
  {
    match r
    case SetOk(t) => SetOk(Fill(s, t))
    case SetErr(e, t) => SetErr(e, Fill(s, t))
    case SetPanic => SetPanic
  }

  /**
    The walk of `SetValue` from `cur` along `toks`. An index step with a
    negative index panics (core.go:142, 181); a non-terminal index step past
    the end of the array panics, because the write-back after growing reads
    the link pushed for that very array (core.go:119-124, 168-176).
  */
  function SetTokens(cur: Value, toks: seq<Token>, val: Value): (r: SetResult)
    requires toks != []
    ensures r.SetOk? ==> (r.tree.VMap? <==> cur.VMap?) && (r.tree.VArr? <==> cur.VArr?)
    ensures r.SetOk? && cur.VArr? ==> |r.tree.elems| >= |cur.elems|
    decreases |toks|
  {
    match toks[0]
    case Key(k) =>
      if !cur.VMap? then SetErr(NotAMap, cur)
      else if |toks| == 1 then SetOk(VMap(cur.entries[k := val]))
      else
        SetInto(InMap(cur.entries, k), SetTokens(Child(cur, toks), toks[1..], val))
    case Idx(i) =>
      if !cur.VArr? then SetErr(NotAnArray, cur)
      else if i < 0 then SetPanic
      else if |toks| == 1 then
        if i < |cur.elems| then SetOk(VArr(cur.elems[i := val]))
        else SetOk(VArr(Grown(cur.elems, i + 1)[i := val]))
      else if i >= |cur.elems| then SetPanic
      else
        SetInto(InArr(cur.elems, i), SetTokens(Child(cur, toks), toks[1..], val))
  }

  function Set(tree: map<string, Value>, path: string, val: Value): (r: SetResult)
    ensures r.SetOk? ==> ParseSpec(path).Ok? && r.tree.VMap?
  {
    match ParseSpec(path)
    case Err(e) => SetErr(PathSyntax(e), VMap(tree))
    case Ok(ts) => if ts == [] then SetErr(EmptyPath, VMap(tree)) else SetTokens(VMap(tree), ts, val)
  }

  // ---- DeletePath (core.go:201-281)

  /**
    The terminal step of `DeletePath`: a key is deleted from a table, an
    in-range index is cut out of an array (`append(a[:i], a[i+1:]...)`), and
    anything else is left alone (core.go:225-255).
  */
  function RemoveAt(c: Value, t: Token): (r: Value)
    ensures (r.VMap? <==> c.VMap?) && (r.VArr? <==> c.VArr?)
    ensures t.Key? && c.VMap? ==> r.entries.Keys == c.entries.Keys - {t.key}
    ensures t.Idx? && c.VArr? ==> |r.elems| == if 0 <= t.index < |c.elems| then |c.elems| - 1 else |c.elems|
  {
    match t
    case Key(k) => if c.VMap? then VMap(c.entries - {k}) else c
    case Idx(i) => if c.VArr? && 0 <= i < |c.elems| then VArr(c.elems[..i] + c.elems[i + 1..]) else c
  }

  function DelInto(s: Slot, r: DelResult): DelResult
  {
    match r
    case DelOk(t) => DelOk(Fill(s, t))
    case _ => r
  }

  /**
    The walk of `DeletePath`. A missing key leaves Go's `cur` at `nil`, on
    which every later step returns at once, so nothing changes. A non-terminal
    negative index reaches `a[t.Index]` and panics (core.go:274-277).
  */
  function DeleteTokens(cur: Value, toks: seq<Token>): (r: DelResult)
    requires toks != []
    ensures !r.DelErr?
    ensures r.DelOk? ==> (r.tree.VMap? <==> cur.VMap?) && (r.tree.VArr? <==> cur.VArr?)
    decreases |toks|
  {
    if |toks| == 1 then DelOk(RemoveAt(cur, toks[0]))
    else
      match toks[0]
      case Key(k) =>
        if !cur.VMap? || k !in cur.entries then DelOk(cur)
        else DelInto(InMap(cur.entries, k), DeleteTokens(cur.entries[k], toks[1..]))
      case Idx(i) =>
        if !cur.VArr? || i >= |cur.elems| then DelOk(cur)
        else if i < 0 then DelPanic
        else DelInto(InArr(cur.elems, i), DeleteTokens(cur.elems[i], toks[1..]))
  }

  function Delete(tree: map<string, Value>, path: string): (r: DelResult)
    ensures r.DelErr? <==> ParseSpec(path).Err?
    ensures r.DelOk? ==> r.tree.VMap?
  {
    match ParseSpec(path)
    case Err(e) => DelErr(e)
    case Ok(ts) => if ts == [] then DelOk(VMap(tree)) else DeleteTokens(VMap(tree), ts)
  }

  // ---- What SetValue promises

  /** A container `SetValue` just created always suits the token in front of which it was created. */
  lemma {:induction false} FreshNeverFails(toks: seq<Token>, val: Value)
    requires toks != []
    ensures !SetTokens(Fresh(toks[0]), toks, val).SetErr?
    decreases |toks|
  {
    if |toks| > 1 && toks[0].Key? {
      FreshNeverFails(toks[1..], val);
    }
  }

  /**
    A failed set leaves the tree as it was: an error is only ever raised
    before anything was created, since a created container always suits the
    next token. (So the call is atomic on its error paths.)
  */
  lemma {:induction false} SetErrKeepsTree(cur: Value, toks: seq<Token>, val: Value)
    requires toks != []
    ensures SetTokens(cur, toks, val).SetErr? ==> SetTokens(cur, toks, val).tree == cur
    decreases |toks|
  {
    if |toks| > 1 {
      match toks[0]
      case Key(k) =>
        if cur.VMap? {
          var m := cur.entries;
          if k in m && m[k] != VNil {
            SetErrKeepsTree(m[k], toks[1..], val);
            assert m[k := m[k]] == m;
          } else {
            FreshNeverFails(toks[1..], val);
          }
        }
      case Idx(i) =>
        if cur.VArr? && 0 <= i < |cur.elems| {
          var a := cur.elems;
          if a[i] != VNil {
            SetErrKeepsTree(a[i], toks[1..], val);
            assert a[i := a[i]] == a;
          } else {
            FreshNeverFails(toks[1..], val);
          }
        }
    }
  }

  /** After a successful set, looking the same path up finds the value set. */
  lemma {:induction false} SetThenLookup(cur: Value, toks: seq<Token>, val: Value)
    requires toks != []
    ensures SetTokens(cur, toks, val).SetOk? ==> LookupTokens(SetTokens(cur, toks, val).tree, toks) == Some(val)
    decreases |toks|
  {
    if |toks| > 1 && Suits(cur, toks[0]) && (toks[0].Idx? ==> 0 <= toks[0].index < |cur.elems|) {
      SetThenLookup(Child(cur, toks), toks[1..], val);
    }
  }

  /** The node the walk of `SetValue` moves to: the existing child, or a fresh container in place of a missing or `nil` one. */
  function Child(cur: Value, toks: seq<Token>): (r: Value)
    requires |toks| > 1 && Suits(cur, toks[0])
    requires toks[0].Idx? ==> 0 <= toks[0].index < |cur.elems|
    ensures r != VNil
    ensures r == Fresh(toks[1]) || LookupTokens(cur, toks[..1]) == Some(r)
  {
    match toks[0]
    case Key(k) => if k in cur.entries && cur.entries[k] != VNil then cur.entries[k] else Fresh(toks[1])
    case Idx(i) => if cur.elems[i] != VNil then cur.elems[i] else Fresh(toks[1])
  }

  /** `v` is the kind of container token `t` steps into. */
  predicate Suits(v: Value, t: Token)
  {
    if t.Key? then v.VMap? else v.VArr?
  }

  /** A successful step leaves a container of the kind its token needs. */
  lemma SetOkSuits(cur: Value, toks: seq<Token>, val: Value)
    requires toks != []
    ensures SetTokens(cur, toks, val).SetOk? ==> Suits(cur, toks[0]) && Suits(SetTokens(cur, toks, val).tree, toks[0])
  {
  }

  /**
    After a successful set every proper prefix of the path leads to a
    container of the kind the following token needs: missing or `nil` slots
    were filled with an empty table or an empty array (core.go:100-110, 179-188).
  */
  lemma {:induction false} SetPathShaped(cur: Value, toks: seq<Token>, val: Value, j: nat)
    requires 0 < j < |toks|
    ensures var r := SetTokens(cur, toks, val);
      r.SetOk? ==> LookupTokens(r.tree, toks[..j]).Some? && Suits(LookupTokens(r.tree, toks[..j]).value, toks[j])
    decreases |toks|
  {
    var r := SetTokens(cur, toks, val);
    if r.SetOk? {
      var child := Child(cur, toks);
      var rest := SetTokens(child, toks[1..], val);
      assert toks[..j][1..] == toks[1..][..j - 1];
      assert LookupTokens(r.tree, toks[..j]) == LookupTokens(rest.tree, toks[1..][..j - 1]);
      if j == 1 {
        SetOkSuits(child, toks[1..], val);
      } else {
        SetPathShaped(child, toks[1..], val, j - 1);
      }
    }
  }

  /** Neither path is a prefix of the other: they part at some step. */
  predicate Diverge(p: seq<Token>, q: seq<Token>)
    decreases |p|
  {
    |p| > 0 && |q| > 0 && (p[0] != q[0] || Diverge(p[1..], q[1..]))
  }

  /**
    A set changes nothing off its path: a node that a diverging path reached
    before is still there, unchanged (core.go:94-98).
  */
  lemma {:induction false} SetLocality(cur: Value, toks: seq<Token>, val: Value, q: seq<Token>)
    requires toks != [] && Diverge(toks, q) && LookupTokens(cur, q).Some?
    ensures SetTokens(cur, toks, val).SetOk? ==> LookupTokens(SetTokens(cur, toks, val).tree, q) == LookupTokens(cur, q)
    decreases |toks|
  {
    var r := SetTokens(cur, toks, val);
    if r.SetOk? && toks[0] == q[0] {
      match toks[0]
      case Key(k) =>
        SetLocality(cur.entries[k], toks[1..], val, q[1..]);
      case Idx(i) =>
        SetLocality(cur.elems[i], toks[1..], val, q[1..]);
    }
  }

  /**
    A terminal index step on an array ending before `i` stores an array of
    length `i + 1`: the old elements keep their places, the new slots hold
    `nil` and slot `i` holds the value (core.go:128-156).
  */
  lemma TerminalGrowth(a: seq<Value>, i: int, val: Value)
    requires |a| <= i
    ensures var r := SetTokens(VArr(a), [Idx(i)], val);
      r.SetOk? && r.tree.VArr? && |r.tree.elems| == i + 1 && r.tree.elems[..|a|] == a &&
      (forall j :: |a| <= j < i ==> r.tree.elems[j] == VNil) && r.tree.elems[i] == val
  {
    var g := Grown(a, i + 1);
    assert g[i := val][..|a|] == a;
  }

  /** A terminal index inside the array replaces that one element in place (core.go:137, 142). */
  lemma TerminalInPlace(a: seq<Value>, i: int, val: Value)
    requires 0 <= i < |a|
    ensures var r := SetTokens(VArr(a), [Idx(i)], val);
      r.SetOk? && r.tree.VArr? && |r.tree.elems| == |a| && r.tree.elems[i] == val &&
      (forall j :: 0 <= j < |a| && j != i ==> r.tree.elems[j] == a[j])
  {
  }

  /** `SetValue` fails cleanly: every error return leaves the tree as it was. */
  lemma SetFailsCleanly(tree: map<string, Value>, path: string, val: Value)
    ensures Set(tree, path, val).SetErr? ==> Set(tree, path, val).tree == VMap(tree)
    ensures Set(tree, path, val).SetErr? && Set(tree, path, val).err.PathSyntax? <==> ParseSpec(path).Err?
  {
    match ParseSpec(path)
    case Err(_) =>
    case Ok(ts) =>
      if ts != [] {
        SetErrKeepsTree(VMap(tree), ts, val);
        if Set(tree, path, val).SetErr? {
          assert Set(tree, path, val).err == SetTokens(VMap(tree), ts, val).err;
          NeverSyntax(VMap(tree), ts, val);
        }
      }
  }

  /** The walk itself never reports a syntax error. */
  lemma {:induction false} NeverSyntax(cur: Value, toks: seq<Token>, val: Value)
    requires toks != []
    ensures SetTokens(cur, toks, val).SetErr? ==> !SetTokens(cur, toks, val).err.PathSyntax?
    decreases |toks|
  {
    if |toks| > 1 && Suits(cur, toks[0]) && (toks[0].Idx? ==> 0 <= toks[0].index < |cur.elems|) {
      NeverSyntax(Child(cur, toks), toks[1..], val);
    }
  }

  // ---- What DeletePath promises

  /** Looking up `p + q` is looking up `p`, then `q` from there. */
  lemma {:induction false} LookupSplit(cur: Value, p: seq<Token>, q: seq<Token>)
    ensures LookupTokens(cur, p + q) ==
      match LookupTokens(cur, p)
      case None => None
      case Some(c) => LookupTokens(c, q)
    decreases |p|
  {
    if p != [] {
      assert (p + q)[0] == p[0];
      assert (p + q)[1..] == p[1..] + q;
      match p[0]
      case Key(k) =>
        if cur.VMap? && k in cur.entries {
          LookupSplit(cur.entries[k], p[1..], q);
        }
      case Idx(i) =>
        if cur.VArr? && 0 <= i < |cur.elems| {
          LookupSplit(cur.elems[i], p[1..], q);
        }
    } else {
      assert p + q == q;
    }
  }

  /** The walk of `DeletePath` never returns an error. */
  lemma {:induction false} DeleteNeverErrs(cur: Value, toks: seq<Token>)
    requires toks != []
    ensures !DeleteTokens(cur, toks).DelErr?
    decreases |toks|
  {
    if |toks| > 1 {
      match toks[0]
      case Key(k) =>
        if cur.VMap? && k in cur.entries {
          DeleteNeverErrs(cur.entries[k], toks[1..]);
        }
      case Idx(i) =>
        if cur.VArr? && 0 <= i < |cur.elems| {
          DeleteNeverErrs(cur.elems[i], toks[1..]);
        }
    }
  }

  /** `DeletePath` returns an error exactly when the path does not parse (core.go:200-208). */
  lemma DeleteErrsOnlyOnSyntax(tree: map<string, Value>, path: string)
    ensures Delete(tree, path).DelErr? <==> ParseSpec(path).Err?
  {
    if ParseSpec(path).Ok? && ParseSpec(path).value != [] {
      DeleteNeverErrs(VMap(tree), ParseSpec(path).value);
    }
  }

  /** Step `j` of the walk meets an array with a negative index. */
  predicate NegativeStepAt(cur: Value, toks: seq<Token>, j: nat)
    requires j < |toks|
  {
    toks[j].Idx? && toks[j].index < 0 &&
    LookupTokens(cur, toks[..j]).Some? && LookupTokens(cur, toks[..j]).value.VArr?
  }

  /** The first step of a walk. */
  lemma LookupOne(cur: Value, toks: seq<Token>)
    requires toks != []
    ensures LookupTokens(cur, toks[..1]) ==
      match toks[0]
      case Key(k) => if cur.VMap? && k in cur.entries then Some(cur.entries[k]) else None
      case Idx(i) => if cur.VArr? && 0 <= i < |cur.elems| then Some(cur.elems[i]) else None
  {
    assert toks[..1][0] == toks[0] && toks[..1][1..] == [];
  }

  /** Step `j + 1` from `cur` is step `j` from the child the first step reaches. */
  lemma NegativeStepShift(cur: Value, toks: seq<Token>, j: nat)
    requires j + 1 < |toks|
    ensures NegativeStepAt(cur, toks, j + 1) <==>
      LookupTokens(cur, toks[..1]).Some? && NegativeStepAt(LookupTokens(cur, toks[..1]).value, toks[1..], j)
  {
    assert toks[..j + 1] == toks[..1] + toks[1..][..j];
    LookupSplit(cur, toks[..1], toks[1..][..j]);
  }

  /**
    `DeletePath` panics exactly when a step before the last meets an array
    with a negative index (core.go:273-277); the last step checks its index
    (core.go:236).
  */
  lemma {:induction false} DeletePanicsExactly(cur: Value, toks: seq<Token>)
    requires toks != []
    ensures DeleteTokens(cur, toks).DelPanic? <==> exists j :: 0 <= j < |toks| - 1 && NegativeStepAt(cur, toks, j)
    decreases |toks|
  {
    if |toks| > 1 {
      var first := LookupTokens(cur, toks[..1]);
      LookupOne(cur, toks);
      forall j | 0 <= j < |toks| - 2
        ensures NegativeStepAt(cur, toks, j + 1) <==> first.Some? && NegativeStepAt(first.value, toks[1..], j)
      {
        NegativeStepShift(cur, toks, j);
      }
      if first.Some? {
        assert DeleteTokens(cur, toks).DelPanic? <==> DeleteTokens(first.value, toks[1..]).DelPanic?;
        DeletePanicsExactly(first.value, toks[1..]);
        if DeleteTokens(first.value, toks[1..]).DelPanic? {
          var j :| 0 <= j < |toks[1..]| - 1 && NegativeStepAt(first.value, toks[1..], j);
          assert NegativeStepAt(cur, toks, j + 1);
        } else {
          forall j | 0 <= j < |toks| - 1 ensures !NegativeStepAt(cur, toks, j) {
            if j == 0 {
              assert toks[..0] == [];
            } else {
              NegativeStepShift(cur, toks, j - 1);
            }
          }
        }
      } else if toks[0].Idx? && toks[0].index < 0 && cur.VArr? {
        assert NegativeStepAt(cur, toks, 0);
      }
    }
  }


  /**
    A path that leads nowhere is deleted as a no-op: missing keys, wrong
    container kinds and out-of-range indices change nothing (core.go:229-237,
    266-276), though a negative index before the last step still panics.
  */
  lemma {:induction false} DeleteMissingIsNoop(cur: Value, toks: seq<Token>)
    requires toks != [] && LookupTokens(cur, toks).None?
    ensures DeleteTokens(cur, toks) == DelOk(cur) || DeleteTokens(cur, toks) == DelPanic
    decreases |toks|
  {
    if |toks| == 1 {
      if toks[0].Key? && cur.VMap? {
        assert cur.entries - {toks[0].key} == cur.entries;
      }
    } else {
      match toks[0]
      case Key(k) =>
        if cur.VMap? && k in cur.entries {
          DeleteMissingIsNoop(cur.entries[k], toks[1..]);
          assert cur.entries[k := cur.entries[k]] == cur.entries;
        }
      case Idx(i) =>
        if cur.VArr? && 0 <= i < |cur.elems| {
          DeleteMissingIsNoop(cur.elems[i], toks[1..]);
          assert cur.elems[i := cur.elems[i]] == cur.elems;
        }
    }
  }

  /**
    A successful delete of a reachable node leaves its holder, found at the
    same place, with the last token removed from it: the key deleted, or the
    array one shorter with its order kept (core.go:227-253).
  */
  lemma {:induction false} DeleteRemoves(cur: Value, toks: seq<Token>, c: Value)
    requires toks != [] && LookupTokens(cur, toks[..|toks| - 1]) == Some(c)
    ensures DeleteTokens(cur, toks).DelOk?
    ensures LookupTokens(DeleteTokens(cur, toks).tree, toks[..|toks| - 1]) == Some(RemoveAt(c, toks[|toks| - 1]))
    decreases |toks|
  {
    if |toks| > 1 {
      var p := toks[..|toks| - 1];
      assert p[0] == toks[0] && p[1..] == toks[1..][..|toks[1..]| - 1];
      match toks[0]
      case Key(k) =>
        DeleteRemoves(cur.entries[k], toks[1..], c);
      case Idx(i) =>
        DeleteRemoves(cur.elems[i], toks[1..], c);
    }
  }

  /** Removing element `i` keeps the elements before it and moves each later one down by one. */
  lemma RemovedElement(a: seq<Value>, i: int)
    requires 0 <= i < |a|
    ensures var r := RemoveAt(VArr(a), Idx(i)).elems;
      |r| == |a| - 1 && (forall j :: 0 <= j < i ==> r[j] == a[j]) && (forall j :: i <= j < |r| ==> r[j] == a[j + 1])
  {
  }

  /** After deleting a key path that succeeded, the path finds nothing. */
  lemma {:induction false} DeleteKeyThenLookup(cur: Value, toks: seq<Token>)
    requires toks != [] && toks[|toks| - 1].Key?
    ensures DeleteTokens(cur, toks).DelOk? ==> LookupTokens(DeleteTokens(cur, toks).tree, toks) == None
    decreases |toks|
  {
    if |toks| > 1 {
      assert toks[1..][|toks[1..]| - 1] == toks[|toks| - 1];
      match toks[0]
      case Key(k) =>
        if cur.VMap? && k in cur.entries {
          DeleteKeyThenLookup(cur.entries[k], toks[1..]);
        }
      case Idx(i) =>
        if cur.VArr? && 0 <= i < |cur.elems| {
          DeleteKeyThenLookup(cur.elems[i], toks[1..]);
        }
    }
  }

  /** Deleting a key path twice is deleting it once. */
  lemma {:induction false} DeleteKeyIdempotent(cur: Value, toks: seq<Token>)
    requires toks != [] && toks[|toks| - 1].Key?
    ensures DeleteTokens(cur, toks).DelOk? ==>
      DeleteTokens(DeleteTokens(cur, toks).tree, toks) == DeleteTokens(cur, toks)
    decreases |toks|
  {
    if |toks| == 1 {
      if cur.VMap? {
        var k := toks[0].key;
        assert cur.entries - {k} - {k} == cur.entries - {k};
      }
    } else {
      assert toks[1..][|toks[1..]| - 1] == toks[|toks| - 1];
      match toks[0]
      case Key(k) =>
        if cur.VMap? && k in cur.entries {
          DeleteKeyIdempotent(cur.entries[k], toks[1..]);
          var r := DeleteTokens(cur.entries[k], toks[1..]);
          if r.DelOk? {
            assert cur.entries[k := r.tree][k := r.tree] == cur.entries[k := r.tree];
          }
        }
      case Idx(i) =>
        if cur.VArr? && 0 <= i < |cur.elems| {
          DeleteKeyIdempotent(cur.elems[i], toks[1..]);
          var r := DeleteTokens(cur.elems[i], toks[1..]);
          if r.DelOk? {
            assert cur.elems[i := r.tree][i := r.tree] == cur.elems[i := r.tree];
          }
        }
    }
  }

  /**
    A delete changes nothing off its path: a path that parts from it keeps
    what it finds. When the last token is an index, the later elements of
    that array move down, so such a path must part before the last token.
  */
  lemma {:induction false} DeleteLocality(cur: Value, toks: seq<Token>, q: seq<Token>)
    requires toks != [] && Diverge(toks, q)
    requires toks[|toks| - 1].Idx? ==> Diverge(toks[..|toks| - 1], q)
    ensures DeleteTokens(cur, toks).DelOk? ==> LookupTokens(DeleteTokens(cur, toks).tree, q) == LookupTokens(cur, q)
    decreases |toks|
  {
    var r := DeleteTokens(cur, toks);
    if r.DelOk? && |toks| > 1 && toks[0] == q[0] {
      var p := toks[..|toks| - 1];
      assert toks[1..][|toks[1..]| - 1] == toks[|toks| - 1];
      assert p[0] == toks[0] && p[1..] == toks[1..][..|toks[1..]| - 1];
      match toks[0]
      case Key(k) =>
        if cur.VMap? && k in cur.entries {
          DeleteLocality(cur.entries[k], toks[1..], q[1..]);
        }
      case Idx(i) =>
        if cur.VArr? && 0 <= i < |cur.elems| {
          DeleteLocality(cur.elems[i], toks[1..], q[1..]);
        }
    }
  }

  // ---- Intermediate growth: as written and as intended

  /**
    `SetValue` as its comments describe it (core.go:159-178): a non-terminal
    index past the end grows the array, fills slot `i` with a fresh container,
    stores the grown array in its holder and walks on. Everything else is as
    in `SetTokens`.
  */
  function SetTokensIntended(cur: Value, toks: seq<Token>, val: Value): (r: SetResult)
    requires toks != []
    ensures r.SetOk? ==> (r.tree.VMap? <==> cur.VMap?) && (r.tree.VArr? <==> cur.VArr?)
    ensures r.SetOk? && cur.VArr? ==> |r.tree.elems| >= |cur.elems|
    decreases |toks|
  {
    match toks[0]
    case Key(k) =>
      if !cur.VMap? then SetErr(NotAMap, cur)
      else if |toks| == 1 then SetOk(VMap(cur.entries[k := val]))
      else SetInto(InMap(cur.entries, k), SetTokensIntended(Child(cur, toks), toks[1..], val))
    case Idx(i) =>
      if !cur.VArr? then SetErr(NotAnArray, cur)
      else if i < 0 then SetPanic
      else if |toks| == 1 then
        if i < |cur.elems| then SetOk(VArr(cur.elems[i := val]))
        else SetOk(VArr(Grown(cur.elems, i + 1)[i := val]))
      else if i >= |cur.elems| then
        SetInto(InArr(Grown(cur.elems, i + 1), i), SetTokensIntended(Fresh(toks[1]), toks[1..], val))
      else SetInto(InArr(cur.elems, i), SetTokensIntended(Child(cur, toks), toks[1..], val))
  }

  /** Every index of the path is at least zero. */
  predicate NoNegative(toks: seq<Token>)
  {
    forall j :: 0 <= j < |toks| && toks[j].Idx? ==> toks[j].index >= 0
  }

  /** Every index step before the last finds an existing element of the tree. */
  predicate IndicesPresent(cur: Value, toks: seq<Token>)
  {
    forall j :: 0 <= j < |toks| - 1 && toks[j].Idx? ==> LookupTokens(cur, toks[..j + 1]).Some?
  }

  /**
    `SetValue` as written cannot panic on a path without negative indices whose
    index steps before the last all name elements that exist: the growth check
    (core.go:160) and the index checks (core.go:142, 181) are then never reached.
  */
  lemma {:induction false} SetNoPanic(cur: Value, toks: seq<Token>, val: Value)
    requires toks != []
    ensures NoNegative(toks) && IndicesPresent(cur, toks) ==> !SetTokens(cur, toks, val).SetPanic?
    decreases |toks|
  {
    if NoNegative(toks) && IndicesPresent(cur, toks) && |toks| > 1 {
      LookupOne(cur, toks);
      if toks[0].Idx? {
        assert LookupTokens(cur, toks[..1]).Some?;
      }
      if Suits(cur, toks[0]) {
        var c := Child(cur, toks);
        var rest := toks[1..];
        forall j | 0 <= j < |rest| && rest[j].Idx? ensures rest[j].index >= 0 {
          assert rest[j] == toks[j + 1];
        }
        forall j | 0 <= j < |rest| - 1 && rest[j].Idx? ensures LookupTokens(c, rest[..j + 1]).Some? {
          assert rest[j] == toks[j + 1];
          ChildStep(cur, toks, j);
        }
        SetNoPanic(c, rest, val);
      }
    }
  }

  /** A lookup that goes past the first step went through the child the set walk moves to. */
  lemma ChildStep(cur: Value, toks: seq<Token>, j: nat)
    requires |toks| > j + 1 && Suits(cur, toks[0]) && (toks[0].Idx? ==> 0 <= toks[0].index < |cur.elems|)
    requires LookupTokens(cur, toks[..j + 2]).Some?
    ensures LookupTokens(Child(cur, toks), toks[1..][..j + 1]).Some?
  {
    assert toks[..j + 2] == toks[..1] + toks[1..][..j + 1];
    LookupSplit(cur, toks[..1], toks[1..][..j + 1]);
    LookupOne(cur, toks);
  }

  /** The path-level form of `SetThenLookup`: what a successful `SetValue` stored, `Lookup` finds. */
  lemma SetThenLookupPath(tree: map<string, Value>, path: string, val: Value)
    ensures Set(tree, path, val).SetOk? ==> Lookup(Set(tree, path, val).tree.entries, path) == Some(val)
  {
    match ParseSpec(path)
    case Err(_) =>
    case Ok(ts) =>
      if ts != [] {
        SetThenLookup(VMap(tree), ts, val);
      }
  }

  /** The parsed path ends with a key. */
  predicate EndsWithKey(path: string)
  {
    ParseSpec(path).Ok? && ParseSpec(path).value != [] && ParseSpec(path).value[|ParseSpec(path).value| - 1].Key?
  }

  /** The path-level form of `DeleteKeyThenLookup`. */
  lemma DeleteKeyThenLookupPath(tree: map<string, Value>, path: string)
    ensures EndsWithKey(path) && Delete(tree, path).DelOk? ==> Lookup(Delete(tree, path).tree.entries, path) == None
  {
    if EndsWithKey(path) {
      DeleteKeyThenLookup(VMap(tree), ParseSpec(path).value);
    }
  }

  /** The path-level form of `DeleteKeyIdempotent`. */
  lemma DeleteKeyIdempotentPath(tree: map<string, Value>, path: string)
    ensures EndsWithKey(path) && Delete(tree, path).DelOk? ==> Delete(Delete(tree, path).tree.entries, path) == Delete(tree, path)
  {
    if EndsWithKey(path) {
      DeleteKeyIdempotent(VMap(tree), ParseSpec(path).value);
    }
  }

  /** Where the code as written does not panic, the intended walk does the same. */
  lemma {:induction false} IntendedAgrees(cur: Value, toks: seq<Token>, val: Value)
    requires toks != []
    ensures !SetTokens(cur, toks, val).SetPanic? ==> SetTokensIntended(cur, toks, val) == SetTokens(cur, toks, val)
    decreases |toks|
  {
    if |toks| > 1 && Suits(cur, toks[0]) && (toks[0].Idx? ==> 0 <= toks[0].index < |cur.elems|) {
      IntendedAgrees(Child(cur, toks), toks[1..], val);
    }
  }

  /** The intended walk panics only on a negative index. */
  lemma {:induction false} IntendedPanicsOnlyOnNegative(cur: Value, toks: seq<Token>, val: Value)
    requires toks != [] && NoNegative(toks)
    ensures !SetTokensIntended(cur, toks, val).SetPanic?
    decreases |toks|
  {
    if |toks| > 1 {
      assert NoNegative(toks[1..]) by {
        forall j | 0 <= j < |toks[1..]| && toks[1..][j].Idx? ensures toks[1..][j].index >= 0 {
          assert toks[1..][j] == toks[j + 1];
        }
      }
      if toks[0].Idx? && cur.VArr? && toks[0].index >= |cur.elems| {
        IntendedPanicsOnlyOnNegative(Fresh(toks[1]), toks[1..], val);
      } else if Suits(cur, toks[0]) && (toks[0].Idx? ==> 0 <= toks[0].index < |cur.elems|) {
        IntendedPanicsOnlyOnNegative(Child(cur, toks), toks[1..], val);
      }
    }
  }

  /** After a successful intended set, the path finds the value set. */
  lemma {:induction false} IntendedThenLookup(cur: Value, toks: seq<Token>, val: Value)
    requires toks != []
    ensures SetTokensIntended(cur, toks, val).SetOk? ==>
      LookupTokens(SetTokensIntended(cur, toks, val).tree, toks) == Some(val)
    decreases |toks|
  {
    if |toks| > 1 {
      if toks[0].Idx? && cur.VArr? && toks[0].index >= |cur.elems| {
        IntendedThenLookup(Fresh(toks[1]), toks[1..], val);
      } else if Suits(cur, toks[0]) && (toks[0].Idx? ==> 0 <= toks[0].index < |cur.elems|) {
        IntendedThenLookup(Child(cur, toks), toks[1..], val);
      }
    }
  }

  /**
    Setting `a[0].b` on a tree without `a`: the code as written creates `a`
    as an empty array and then panics on the write-back; the intended walk
    builds `a = [{b = val}]`.
  */
  lemma ExampleIntermediateGrowth(val: Value)
    ensures SetTokens(VMap(map[]), [Key("a"), Idx(0), Key("b")], val) == SetPanic
    ensures SetTokensIntended(VMap(map[]), [Key("a"), Idx(0), Key("b")], val) ==
      SetOk(VMap(map["a" := VArr([VMap(map["b" := val])])]))
  {
    var toks := [Key("a"), Idx(0), Key("b")];
    assert toks[1..] == [Idx(0), Key("b")];
    assert toks[1..][1..] == [Key("b")];
    assert Child(VMap(map[]), toks) == VArr([]);
    assert Grown([], 1) == [VNil];
    var inner := SetOk(VMap(map["b" := val]));
    assert SetTokensIntended(VMap(map[]), [Key("b")], val) == inner;
    assert [VNil][0 := VMap(map["b" := val])] == [VMap(map["b" := val])];
    assert SetTokensIntended(VArr([]), toks[1..], val) == SetOk(VArr([VMap(map["b" := val])]));
  }

  /** `SetValue(tree, "a[0].b", val)` on an empty tree panics. */
  lemma ExampleIntermediateGrowthPanics(val: Value)
    ensures Set(map[], "a[0].b", val) == SetPanic
  {
    ExampleGrowthPath();
    ExampleIntermediateGrowth(val);
  }

  // ---- Worked examples

  /**
    Setting `a[5]` on a tree without `a` stores `[nil, nil, nil, nil, nil, val]`,
    and `a[2]` is then found, holding `nil`.
  */
  lemma ExampleTerminalGrowth(val: Value)
    ensures SetTokens(VMap(map[]), [Key("a"), Idx(5)], val) ==
      SetOk(VMap(map["a" := VArr([VNil, VNil, VNil, VNil, VNil, val])]))
    ensures LookupTokens(VMap(map["a" := VArr([VNil, VNil, VNil, VNil, VNil, val])]), [Key("a"), Idx(2)]) == Some(VNil)
  {
    var toks := [Key("a"), Idx(5)];
    assert toks[1..] == [Idx(5)];
    assert Grown([], 6)[5 := val] == [VNil, VNil, VNil, VNil, VNil, val];
    var q := [Key("a"), Idx(2)];
    assert q[1..] == [Idx(2)] && q[1..][1..] == [];
  }

  /** A negative index panics in `SetValue` even where it parses. */
  lemma ExampleNegativeSetPanics(a: seq<Value>, val: Value)
    ensures SetTokens(VMap(map["a" := VArr(a)]), [Key("a"), Idx(-1)], val) == SetPanic
  {
    var toks := [Key("a"), Idx(-1)];
    assert toks[1..] == [Idx(-1)];
  }

  /**
    Deleting `a[0]` from `a = [x, y, z]` shifts `y` into slot 0, so a second
    delete of `a[0]` removes `y`: deleting an index path is not idempotent,
    and the path is still found afterwards.
  */
  lemma ExampleDeleteShifts(x: Value, y: Value, z: Value)
    ensures DeleteTokens(VMap(map["a" := VArr([x, y, z])]), [Key("a"), Idx(0)]) == DelOk(VMap(map["a" := VArr([y, z])]))
    ensures LookupTokens(VMap(map["a" := VArr([y, z])]), [Key("a"), Idx(0)]) == Some(y)
    ensures DeleteTokens(VMap(map["a" := VArr([y, z])]), [Key("a"), Idx(0)]) == DelOk(VMap(map["a" := VArr([z])]))
  {
    var toks := [Key("a"), Idx(0)];
    assert toks[1..] == [Idx(0)] && toks[1..][1..] == [];
    assert [x, y, z][..0] + [x, y, z][1..] == [y, z];
    assert [y, z][..0] + [y, z][1..] == [z];
    assert DeleteTokens(VArr([x, y, z]), [Idx(0)]) == DelOk(VArr([y, z]));
    assert DeleteTokens(VArr([y, z]), [Idx(0)]) == DelOk(VArr([z]));
    assert map["a" := VArr([x, y, z])]["a" := VArr([y, z])] == map["a" := VArr([y, z])];
    assert map["a" := VArr([y, z])]["a" := VArr([z])] == map["a" := VArr([z])];
  }
}
