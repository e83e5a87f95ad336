/**
 * Building the type graph of an expression array: one slot per node, a letter
 * bound to the first slot of its letter, an application constraining its
 * callee to be a function from its argument to its own slot.
 */
module TypeInfer {
  import opened Wrappers
  import opened Ast
  import opened TypeSlots

  // ---------------------------------------------------------------------------
  // Frames: merges below a bound never touch the slots at or above it

  /** Every function slot below `n` refers only to slots below `n`. */
  ghost predicate Below(t: seq<Type>, n: nat)
    requires n <= |t|
  {
    forall j | 0 <= j < n && t[j].delta > 1 :: j + t[j].delta < n && j + t[j].deltaArg < n
  }

  /** `u` agrees with `t` from slot `n` on. */
  ghost predicate SameFrom(t: seq<Type>, u: seq<Type>, n: nat)
  {
    |u| == |t| && forall j | n <= j < |t| :: u[j] == t[j]
  }

  lemma RelinkFrame(t: seq<Type>, idx: nat, n: nat)
    requires WellFormed(t) && idx < n <= |t| && Below(t, n)
    ensures var u := Relink(t, idx).0; SameFrom(t, u, n) && Below(u, n)
  {
    var (u, first) := Relink(t, idx);
    forall j | 0 <= j < |t| && OnPath(t, idx, j) && t[j].delta < 0 ensures j <= idx && first < j {
      OnPathFacts(t, idx, j);
      assert Find(t, j) == Find(t, j + t[j].delta);
    }
  }

  lemma {:induction false} UnifiedFrame(t: seq<Type>, ia: nat, ib: nat, n: nat)
    requires WellFormed(t) && ia < n && ib < n && n <= |t| && Below(t, n)
    ensures var r := Unified(t, ia, ib); SameFrom(t, r, n) && Below(r, n)
    decreases |Canon(t)|, 2
  {
    FindBoth(t, ia, ib);
    RelinkCompresses(t, ia);
    var (t1, a) := Relink(t, ia);
    RelinkFrame(t, ia, n);
    var (t2, b) := Relink(t1, ib);
    RelinkFrame(t1, ib, n);
    RootsMergedFrame(t2, a, b, n);
  }

  lemma {:induction false} RootsMergedFrame(t: seq<Type>, a: nat, b: nat, n: nat)
    requires WellFormed(t) && a < n && b < n && n <= |t| && Below(t, n)
    requires t[a].delta >= 0 && t[b].delta >= 0
    ensures var r := RootsMerged(t, a, b); SameFrom(t, r, n) && Below(r, n)
    decreases |Canon(t)|, 1
  {
    if a < b {
      SubgraphReplacedFrame(t, b, a, n);
    } else if b < a {
      SubgraphReplacedFrame(t, a, b, n);
    }
  }

  lemma {:induction false} SubgraphReplacedFrame(t: seq<Type>, dest: nat, repl: nat, n: nat)
    requires WellFormed(t) && repl < dest < n <= |t| && Below(t, n)
    requires t[dest].delta >= 0 && t[repl].delta >= 0
    ensures var r := SubgraphReplaced(t, dest, repl); SameFrom(t, r, n) && Below(r, n)
    decreases |Canon(t)|, 0
  {
    var dv := AsFunType(t, dest);
    var rv := AsFunType(t, repl);
    LinkStep(t, dest, repl);
    var t2 := LinkWritten(t, dest, repl);
    assert SameFrom(t, t2, n) && Below(t2, n);
    if !rv.NotFun? && !dv.NotFun? {
      assert rv.arg == Arg(t, repl) && rv.ret == Ret(t, repl);
      assert dv.arg == Arg(t, dest) && dv.ret == Ret(t, dest);
      var t3 := Unified(t2, rv.arg, dv.arg);
      SubsetCard(Canon(t3), Canon(t2));
      UnifiedFrame(t2, rv.arg, dv.arg, n);
      UnifiedFrame(t3, rv.ret, dv.ret, n);
      assert SubgraphReplaced(t, dest, repl) == Unified(t3, rv.ret, dv.ret);
    }
  }

  // ---------------------------------------------------------------------------
  // coerce_callee: the callee of an application is a function

  /** The class of `ifun` is a function from the class of `iarg` to the class of `iret`. */
  ghost predicate CallTyped(t: seq<Type>, ifun: nat, iarg: nat, iret: nat)
    requires WellFormed(t) && ifun < |t| && iarg < |t| && iret < |t|
  {
    var r := Find(t, ifun);
    && t[r].delta > 1
    && Find(t, Arg(t, r)) == Find(t, iarg)
    && Find(t, Ret(t, r)) == Find(t, iret)
  }

  /**
   * Makes the callee `ifun` of the application at `iret` a function from the
   * argument slot `iret - 1` to `iret`: the callee is found with compression,
   * then its canonical slot is coerced.
   */
  ghost function CalleeCoerced(t: seq<Type>, ifun: nat, iret: nat): (r: seq<Type>)
    requires WellFormed(t) && ifun + 1 < iret < |t|
    ensures |r| == |t| && WellFormed(r)
  {
    RelinkCompresses(t, ifun);
    var (t1, f) := Relink(t, ifun);
    CoercedRoot(t1, f, iret)
  }

  /**
   * Coerces slot `f` to a function from `iret - 1` to `iret`: a slot that is not
   * yet a function gets those slots written in; a function has its argument and
   * return merged with them.
   */
  ghost function CoercedRoot(t: seq<Type>, f: nat, iret: nat): (r: seq<Type>)
    requires WellFormed(t) && f + 1 < iret < |t|
    ensures |r| == |t| && WellFormed(r)
  {
    var v := AsFunType(t, f);
    if v.NotFun? then
      t[f := FunSlot(f, iret - 1, iret)]
    else
      MergedFunction(t, f, iret)
  }

  /** coerce_callee on a function slot: its argument class merged with `iret - 1`'s, then its return class with `iret`'s. */
  ghost function MergedFunction(t: seq<Type>, f: nat, iret: nat): (r: seq<Type>)
    requires WellFormed(t) && f < iret < |t| && t[f].delta > 1
    ensures |r| == |t| && WellFormed(r)
  {
    Unified(Unified(t, Arg(t, f), iret - 1), Ret(t, f), iret)
  }

  method CoerceCallee(types: array<Type>, ifun: nat, iret: nat)
    requires WellFormed(types[..]) && ifun + 1 < iret < types.Length
    modifies types
    ensures types[..] == CalleeCoerced(old(types[..]), ifun, iret)
  {
    ghost var t := types[..];
    RelinkCompresses(t, ifun);
    var f := RelinkToFirst(types, ifun);
    CoerceRoot(types, f, iret);
  }

  /** The part of coerce_callee after the find: coerces the callee's canonical slot `f`. */
  method CoerceRoot(types: array<Type>, f: nat, iret: nat)
    requires WellFormed(types[..]) && f + 1 < iret < types.Length
    modifies types
    ensures types[..] == CoercedRoot(old(types[..]), f, iret)
  {
    var iarg := iret - 1;
    var v := AsFunType(types[..], f);
    if v.NotFun? {
      ReplaceWithFun(types, f, iarg, iret);
      return;
    }
    ghost var t := types[..];
    assert v.arg == Arg(t, f) && v.ret == Ret(t, f);
    Unify(types, v.arg, iarg);
    ghost var t2 := types[..];
    Unify(types, v.ret, iret);
    assert types[..] == Unified(t2, Ret(t, f), iret) && t2 == Unified(t, Arg(t, f), iarg);
    assert CoercedRoot(t, f, iret) == MergedFunction(t, f, iret);
  }

  /** Writing function data into a canonical non-function slot moves no slot to another class. */
  lemma {:induction false} FunWrittenFind(t: seq<Type>, u: seq<Type>, f: nat, i: nat)
    requires WellFormed(t) && WellFormed(u) && f < |t| && i < |t| && t[f].delta == 0
    requires |u| == |t| && u[f].delta > 1 && forall j | 0 <= j < |t| && j != f :: u[j] == t[j]
    ensures Find(u, i) == Find(t, i)
    decreases i
  {
    if i != f && t[i].delta < 0 {
      FunWrittenFind(t, u, f, i + t[i].delta);
    }
  }

  lemma FunWrittenRefines(t: seq<Type>, f: nat, iarg: nat, iret: nat)
    requires WellFormed(t) && f < iarg < iret < |t| && t[f].delta == 0
    ensures var u := t[f := FunSlot(f, iarg, iret)];
      && WellFormed(u) && Refines(t, u)
      && Find(u, f) == f && Arg(u, f) == iarg && Ret(u, f) == iret
  {
    var u := t[f := FunSlot(f, iarg, iret)];
    assert WellFormed(u);
    SameClasses(t, u, f);
    CoarserRefl(t);
    forall r | 0 <= r < |t| && t[r].delta > 1 ensures Carried(t, u, r) {
      assert u[r] == t[r];
    }
  }

  lemma SameClasses(t: seq<Type>, u: seq<Type>, f: nat)
    requires WellFormed(t) && WellFormed(u) && f < |t| && t[f].delta == 0
    requires |u| == |t| && u[f].delta > 1 && forall j | 0 <= j < |t| && j != f :: u[j] == t[j]
    ensures forall i | 0 <= i < |t| :: Find(u, i) == Find(t, i)
    ensures Coarser(t, u)
  {
    forall i | 0 <= i < |t| ensures Find(u, i) == Find(t, i) {
      FunWrittenFind(t, u, f, i);
    }
    CoarserRefl(t);
  }

  /** A function class stays a function class with matching argument and return under refinement. */
  lemma CallTypedPersists(t: seq<Type>, u: seq<Type>, ifun: nat, iarg: nat, iret: nat)
    requires WellFormed(t) && WellFormed(u) && |u| == |t| && Refines(t, u)
    requires ifun < |t| && iarg < |t| && iret < |t| && CallTyped(t, ifun, iarg, iret)
    ensures CallTyped(u, ifun, iarg, iret)
  {
    var r := Find(t, ifun);
    assert Carried(t, u, r);
    assert Find(u, ifun) == Find(u, r);
    var a, e := Arg(t, r), Ret(t, r);
    assert Find(u, a) == Find(u, Find(t, a));
    assert Find(u, iarg) == Find(u, Find(t, iarg));
    assert Find(u, e) == Find(u, Find(t, e));
    assert Find(u, iret) == Find(u, Find(t, iret));
  }

  /** After coerce_callee the callee's class is a function from the argument slot to the call's slot. */
  lemma CalleeCoercedTypes(t: seq<Type>, ifun: nat, iret: nat)
    requires WellFormed(t) && ifun + 1 < iret < |t|
    ensures var r := CalleeCoerced(t, ifun, iret);
      Refines(t, r) && CallTyped(r, ifun, iret - 1, iret)
  {
    RelinkCompresses(t, ifun);
    var (t1, f) := Relink(t, ifun);
    CompressedRefines(t, t1);
    assert Find(t1, ifun) == f;
    CoercedRootTypes(t1, f, iret);
    var r := CoercedRoot(t1, f, iret);
    RefinesTrans(t, t1, r);
    assert Find(r, ifun) == Find(r, Find(t1, ifun));
  }

  /** Coercing a canonical slot makes it a function from `iret - 1` to `iret`, and only refines the graph. */
  lemma CoercedRootTypes(t: seq<Type>, f: nat, iret: nat)
    requires WellFormed(t) && f + 1 < iret < |t| && t[f].delta >= 0
    ensures var r := CoercedRoot(t, f, iret);
      Refines(t, r) && CallTyped(r, f, iret - 1, iret)
  {
    var v := AsFunType(t, f);
    if v.NotFun? {
      FunWrittenRefines(t, f, iret - 1, iret);
    } else {
      assert v.arg == Arg(t, f) && v.ret == Ret(t, f);
      MergedFunctionTyped(t, f, iret);
    }
  }

  /** Unifying a function's argument and return with `iret - 1` and `iret` types the application. */
  lemma MergedFunctionTyped(t: seq<Type>, f: nat, iret: nat)
    requires WellFormed(t) && f + 1 < iret < |t| && t[f].delta > 1
    ensures Refines(t, MergedFunction(t, f, iret))
    ensures CallTyped(MergedFunction(t, f, iret), f, iret - 1, iret)
  {
    var t2 := Unified(t, Arg(t, f), iret - 1);
    UnifiedJoins(t, Arg(t, f), iret - 1);
    UnifiedJoins(t2, Ret(t, f), iret);
    assert Joined(t, t2, Arg(t, f), iret - 1);
    assert Joined(t2, Unified(t2, Ret(t, f), iret), Ret(t, f), iret);
    assert f < |t| && iret - 1 < |t| && iret < |t| && WellFormed(t) && t[f].delta > 1;
    MergedTwiceTyped(t, t2, Unified(t2, Ret(t, f), iret), f, iret - 1, iret);
  }

  /** `r` refines `t` and has joined the classes of `ia` and `ib`. */
  ghost predicate Joined(t: seq<Type>, r: seq<Type>, ia: nat, ib: nat)
  {
    && WellFormed(t) && WellFormed(r) && |r| == |t| && ia < |t| && ib < |t|
    && Refines(t, r) && Find(r, ia) == Find(r, ib)
  }

  lemma UnifiedJoins(t: seq<Type>, ia: nat, ib: nat)
    requires WellFormed(t) && ia < |t| && ib < |t|
    ensures Joined(t, Unified(t, ia, ib), ia, ib)
  {
    UnifiedMerges(t, ia, ib);
  }

  /** A function whose argument class was joined with `iarg`'s, then its result class with `iret`'s, types the call. */
  lemma MergedTwiceTyped(t: seq<Type>, t2: seq<Type>, r: seq<Type>, f: nat, iarg: nat, iret: nat)
    requires f < |t| && iarg < |t| && iret < |t| && WellFormed(t) && t[f].delta > 1
    requires Joined(t, t2, Arg(t, f), iarg) && Joined(t2, r, Ret(t, f), iret)
    ensures Refines(t, r) && CallTyped(r, f, iarg, iret)
  {
    RefinesTrans(t, t2, r);
    assert Carried(t, r, f);
    assert Find(r, Arg(t, f)) == Find(r, Find(t2, Arg(t, f)));
    assert Find(r, iarg) == Find(r, Find(t2, iarg));
  }


  lemma CalleeCoercedFrame(t: seq<Type>, ifun: nat, iret: nat)
    requires WellFormed(t) && ifun + 1 < iret < |t| && Below(t, iret + 1)
    ensures var r := CalleeCoerced(t, ifun, iret); SameFrom(t, r, iret + 1) && Below(r, iret + 1)
  {
    RelinkCompresses(t, ifun);
    RelinkFrame(t, ifun, iret + 1);
    var (t1, f) := Relink(t, ifun);
    CoercedRootFrame(t1, f, iret);
    SameFromTrans(t, t1, CoercedRoot(t1, f, iret), iret + 1);
  }

  lemma CoercedRootFrame(t: seq<Type>, f: nat, iret: nat)
    requires WellFormed(t) && f + 1 < iret < |t| && Below(t, iret + 1)
    ensures var r := CoercedRoot(t, f, iret); SameFrom(t, r, iret + 1) && Below(r, iret + 1)
  {
    var v := AsFunType(t, f);
    if v.NotFun? {
      FunSlotFrame(t, f, iret);
    } else {
      assert v.arg == Arg(t, f) && v.ret == Ret(t, f);
      MergedFunctionFrame(t, f, iret);
    }
  }

  lemma FunSlotFrame(t: seq<Type>, f: nat, iret: nat)
    requires WellFormed(t) && f + 1 < iret < |t| && Below(t, iret + 1)
    ensures var r := t[f := FunSlot(f, iret - 1, iret)]; SameFrom(t, r, iret + 1) && Below(r, iret + 1)
  {
  }

  lemma MergedFunctionFrame(t: seq<Type>, f: nat, iret: nat)
    requires WellFormed(t) && f < iret < |t| && t[f].delta > 1 && Below(t, iret + 1)
    ensures var r := MergedFunction(t, f, iret);
      SameFrom(t, r, iret + 1) && Below(r, iret + 1)
  {
    var t2 := Unified(t, Arg(t, f), iret - 1);
    UnifiedFrame(t, Arg(t, f), iret - 1, iret + 1);
    UnifiedFrame(t2, Ret(t, f), iret, iret + 1);
    SameFromTrans(t, t2, Unified(t2, Ret(t, f), iret), iret + 1);
  }

  lemma SameFromTrans(t0: seq<Type>, t1: seq<Type>, t2: seq<Type>, n: nat)
    requires SameFrom(t0, t1, n) && SameFrom(t1, t2, n)
    ensures SameFrom(t0, t2, n)
  {
  }

  // ---------------------------------------------------------------------------
  // bind_to_typevar: a letter shares the type of its first occurrence

  /** Entries of the binding table (`MAX_TOKS` in type.c). */
  const MAX_TOKS: nat := 26 + 9

  /** Offset of a token's entry in the binding table. */
  const BIND_BASE: nat := 9

  /**
   * The binding-table entry of token `tok`, or None where that entry would lie
   * outside the table; bind_to_typevar dies there.
   */
  function BindSlot(tok: int): (r: Option<nat>)
    ensures r.Some? <==> -(BIND_BASE as int) <= tok < MAX_TOKS - BIND_BASE
    ensures r.Some? ==> r.value < MAX_TOKS && r.value - BIND_BASE == tok
  {
    if 0 <= BIND_BASE + tok < MAX_TOKS then Some(BIND_BASE + tok) else None
  }

  /** Every letter has an entry, and different letters have different entries. */
  lemma LetterSlots(tok1: int, tok2: int)
    requires 0 <= tok1 < NUM_LETTERS && 0 <= tok2 < NUM_LETTERS
    ensures BindSlot(tok1).Some? && BindSlot(tok2).Some?
    ensures BindSlot(tok1) == BindSlot(tok2) <==> tok1 == tok2
  {
  }

  /** The guard as bind_to_typevar writes it: `9 + tok` as a 32-bit unsigned index, dying only above MAX_TOKS. */
  function BindSlotAsWritten(tok: int): (r: Option<nat>)
    ensures r.Some? <==> tok <= MAX_TOKS
    ensures r.Some? ==> r.value < 0x1_0000_0000
  {
    if tok > MAX_TOKS then None else Some((BIND_BASE + tok) % 0x1_0000_0000)
  }

  /** The guard lets through a token whose entry lies past the end of the table. */
  lemma BindGuardAdmitsOverflow()
    ensures exists tok :: BindSlotAsWritten(tok).Some? && BindSlotAsWritten(tok).value >= MAX_TOKS
                          && BindSlot(tok).None?
  {
    assert BindSlotAsWritten(26).value == 35;
  }

  /** The graph as the builder holds it: one slot per node and the binding table. */
  datatype Graph = Graph(types: seq<Type>, bindings: seq<Option<nat>>)

  /**
   * bind_to_typevar for a node at `target` with an in-range token: link the node
   * to the token's first slot, or record the node as that slot.
   */
  function Bound(g: Graph, target: nat, tok: int): (r: Graph)
    requires BindSlot(tok).Some? && |g.bindings| == MAX_TOKS && target < |g.types|
    requires var e := g.bindings[BindSlot(tok).value]; e.Some? ==> e.value < target
    ensures |r.types| == |g.types| && |r.bindings| == MAX_TOKS
    ensures var b := BindSlot(tok).value;
      && r.bindings[b].Some?
      && (g.bindings[b].Some? ==> r == g.(types := g.types[target := Link(target, g.bindings[b].value)]))
      && (g.bindings[b].None? ==> r == g.(bindings := g.bindings[b := Some(target)]))
  {
    var b := BindSlot(tok).value;
    match g.bindings[b]
    case Some(p) => g.(types := g.types[target := Link(target, p)])
    case None => g.(bindings := g.bindings[b := Some(target)])
  }

  /** Linking a fresh slot `k` to an earlier slot `p` moves only `k`'s class: into `p`'s. */
  lemma {:induction false} PriorLinkFind(t: seq<Type>, k: nat, p: nat, i: nat)
    requires WellFormed(t) && p < k < |t| && t[k].delta >= 0 && i < |t|
    ensures var u := t[k := Link(k, p)];
      WellFormed(u) && Find(u, i) == if Find(t, i) == k then Find(t, p) else Find(t, i)
    decreases i
  {
    var u := t[k := Link(k, p)];
    assert WellFormed(u);
    if i == k {
      PriorLinkFind(t, k, p, p);
    } else if t[i].delta < 0 {
      PriorLinkFind(t, k, p, i + t[i].delta);
    }
  }

  lemma PriorLinkRefines(t: seq<Type>, k: nat, p: nat)
    requires WellFormed(t) && p < k < |t| && t[k] == FRESH
    ensures var u := t[k := Link(k, p)];
      WellFormed(u) && Refines(t, u) && Find(u, k) == Find(u, p)
  {
    var u := t[k := Link(k, p)];
    PriorLinkFind(t, k, p, k);
    PriorLinkFind(t, k, p, p);
    forall i | 0 <= i < |t| ensures Find(u, i) == Find(u, Find(t, i)) {
      PriorLinkFind(t, k, p, i);
      PriorLinkFind(t, k, p, Find(t, i));
    }
    forall r | 0 <= r < |t| && t[r].delta > 1 ensures Carried(t, u, r) {
      PriorLinkFind(t, k, p, r);
      assert u[r] == t[r];
    }
  }

  // ---------------------------------------------------------------------------
  // infer_new_type and build_type_graph

  /** The expression arrays the builder handles: letters and applications, laid out for decoding. */
  ghost predicate Typable(exprs: seq<AstNode>)
  {
    LaidOut(exprs) && ApplicationsOnly(exprs)
  }

  /** The callee root of the application at `c`. */
  function Callee(exprs: seq<AstNode>, c: nat): (r: nat)
    requires c < |exprs| && NodeLaidOut(exprs, c) && exprs[c].tag == ANT_CALL
    ensures r + 1 < c
    ensures Unpack(exprs, c) == Success(Unpacked(AntCall, r))
  {
    c - exprs[c].payload - 1
  }

  /**
   * The builder's state before node `k` is typed: slots from `k` on are fresh,
   * functions below `k` refer below `k`, bindings name earlier nodes.
   */
  ghost predicate GraphOk(exprs: seq<AstNode>, g: Graph, k: nat)
  {
    && Shaped(exprs, g) && k <= |exprs| && Below(g.types, k)
    && (forall j | k <= j < |exprs| :: g.types[j] == FRESH)
    && (forall b | 0 <= b < MAX_TOKS && g.bindings[b].Some? :: g.bindings[b].value < k)
  }

  /** infer_new_type at node `k`: a letter is bound, an application coerces its callee. */
  ghost function Inferred(exprs: seq<AstNode>, g: Graph, k: nat): (r: Graph)
    requires Typable(exprs) && k < |exprs| && GraphOk(exprs, g, k)
    ensures GraphOk(exprs, r, k + 1)
  {
    assert NodeLaidOut(exprs, k);
    var u := Unpack(exprs, k).value;
    if u.tag == AntVar then
      Bound(g, k, u.val)
    else
      var ifun := Callee(exprs, k);
      CalleeCoercedFrame(g.types, ifun, k);
      g.(types := CalleeCoerced(g.types, ifun, k))
  }

  /** The graph after the first loop of build_type_graph has typed nodes `0 .. k-1`. */
  ghost function BuiltPrefix(exprs: seq<AstNode>, k: nat): (g: Graph)
    requires Typable(exprs) && k <= |exprs|
    ensures GraphOk(exprs, g, k)
    decreases k, 0
  {
    if k == 0 then Graph(seq(|exprs|, _ => FRESH), seq(MAX_TOKS, _ => None)) else TypedThrough(exprs, k - 1)
  }

  /** The graph once node `k` is typed too. */
  ghost function TypedThrough(exprs: seq<AstNode>, k: nat): (g: Graph)
    requires Typable(exprs) && k < |exprs|
    ensures GraphOk(exprs, g, k + 1)
    decreases k, 1
  {
    Inferred(exprs, BuiltPrefix(exprs, k), k)
  }

  lemma BuiltPrefixNext(exprs: seq<AstNode>, k: nat)
    requires Typable(exprs) && k < |exprs|
    ensures BuiltPrefix(exprs, k + 1) == Inferred(exprs, BuiltPrefix(exprs, k), k)
  {
    assert BuiltPrefix(exprs, k + 1) == TypedThrough(exprs, k);
  }

  /** Nodes `0 .. k-1` typed: every application's callee is a function, every letter in its first occurrence's class. */
  ghost predicate PrefixTyped(exprs: seq<AstNode>, g: Graph, k: nat)
    requires Typable(exprs) && GraphOk(exprs, g, k)
  {
    CallsTyped(exprs, g.types, k) && LettersBound(exprs, g, k)
  }

  lemma {:induction false} BuiltPrefixTyped(exprs: seq<AstNode>, k: nat)
    requires Typable(exprs) && k <= |exprs|
    ensures PrefixTyped(exprs, BuiltPrefix(exprs, k), k)
    decreases k, 1
  {
    if k > 0 {
      TypedThroughTyped(exprs, k);
    }
  }

  /** Typing node `k - 1` keeps the promises for the nodes before it and adds its own. */
  lemma TypedThroughTyped(exprs: seq<AstNode>, k: nat)
    requires Typable(exprs) && 0 < k <= |exprs|
    ensures PrefixTyped(exprs, BuiltPrefix(exprs, k), k)
    decreases k, 0
  {
    var j := k - 1;
    BuiltPrefixTyped(exprs, j);
    assert j + 1 == k;
    InferredTyped(exprs, BuiltPrefix(exprs, j), j);
    assert BuiltPrefix(exprs, k) == TypedThrough(exprs, j) == Inferred(exprs, BuiltPrefix(exprs, j), j);
  }

  // ---------------------------------------------------------------------------
  // What the graph promises

  /** Every application below `k` has a callee whose class is a function from its argument to itself. */
  ghost predicate CallsTyped(exprs: seq<AstNode>, t: seq<Type>, k: nat)
    requires Typable(exprs) && |t| == |exprs| && WellFormed(t) && k <= |exprs|
  {
    forall c {:trigger Callee(exprs, c)} | 0 <= c < k && exprs[c].tag == ANT_CALL ::
      CallTyped(t, Callee(exprs, c), c - 1, c)
  }

  /** `p` is the first letter node carrying token `tok`. */
  ghost predicate FirstLetter(exprs: seq<AstNode>, p: nat, tok: int)
  {
    p < |exprs| && exprs[p] == VarNode(tok) && forall q | 0 <= q < p :: exprs[q] != VarNode(tok)
  }

  /**
   * The bindings of the letters seen below `k`: a letter's entry names its first
   * occurrence, or is empty when the letter has not occurred; every occurrence
   * is in the class of the first.
   */
  ghost predicate LettersBound(exprs: seq<AstNode>, g: Graph, k: nat)
    requires Typable(exprs) && Shaped(exprs, g) && k <= |exprs|
  {
    && (forall tok | 0 <= tok < NUM_LETTERS :: LetterBound(exprs, LetterEntry(g.bindings, tok), tok, k))
    && (forall i | 0 <= i < k && exprs[i].tag == ANT_VAR ::
          NodeLaidOut(exprs, i) &&
          var e := LetterEntry(g.bindings, exprs[i].payload);
          e.Some? && e.value < |exprs| && Find(g.types, i) == Find(g.types, e.value))
  }

  /** The binding-table entry of letter `tok`. */
  function LetterEntry(bindings: seq<Option<nat>>, tok: int): Option<nat>
    requires |bindings| == MAX_TOKS && 0 <= tok < NUM_LETTERS
  {
    bindings[BIND_BASE + tok]
  }

  /** Entry `e` of letter `tok` is empty until the letter occurs below `k`, then names its first occurrence. */
  ghost predicate LetterBound(exprs: seq<AstNode>, e: Option<nat>, tok: int, k: nat)
  {
    && (e.None? ==> forall i | 0 <= i < k && i < |exprs| :: exprs[i] != VarNode(tok))
    && (e.Some? ==> FirstLetter(exprs, e.value, tok) && e.value < k)
  }

  /** The sizes the builder allocates, and a well-formed slot array. */
  ghost predicate Shaped(exprs: seq<AstNode>, g: Graph)
  {
    |g.types| == |exprs| && |g.bindings| == MAX_TOKS && WellFormed(g.types)
  }

  lemma CallsTypedPersist(exprs: seq<AstNode>, t: seq<Type>, u: seq<Type>, k: nat)
    requires Typable(exprs) && |t| == |exprs| && WellFormed(t) && k <= |exprs|
    requires WellFormed(u) && |u| == |t| && Refines(t, u) && CallsTyped(exprs, t, k)
    ensures CallsTyped(exprs, u, k)
  {
    forall c | 0 <= c < k && exprs[c].tag == ANT_CALL ensures CallTyped(u, Callee(exprs, c), c - 1, c) {
      var f := Callee(exprs, c);
      CallTypedPersists(t, u, f, c - 1, c);
    }
  }

  lemma LettersPersist(exprs: seq<AstNode>, g: Graph, u: seq<Type>, k: nat)
    requires Typable(exprs) && Shaped(exprs, g) && k <= |exprs| && LettersBound(exprs, g, k)
    requires WellFormed(u) && |u| == |g.types| && Coarser(g.types, u)
    ensures Shaped(exprs, g.(types := u)) && LettersBound(exprs, g.(types := u), k)
  {
    var t, g' := g.types, g.(types := u);
    forall tok | 0 <= tok < NUM_LETTERS
      ensures LetterBound(exprs, LetterEntry(g'.bindings, tok), tok, k)
    {
      assert LetterEntry(g'.bindings, tok) == LetterEntry(g.bindings, tok);
    }
    forall i | 0 <= i < k && exprs[i].tag == ANT_VAR
      ensures Find(u, i) == Find(u, LetterEntry(g.bindings, exprs[i].payload).value)
    {
      assert NodeLaidOut(exprs, i);
      var p := LetterEntry(g.bindings, exprs[i].payload).value;
      assert Find(u, i) == Find(u, Find(t, i));
      assert Find(u, p) == Find(u, Find(t, p));
    }
  }

  /** Typing node `k` keeps every earlier promise and adds the one for `k`. */
  lemma InferredTyped(exprs: seq<AstNode>, g: Graph, k: nat)
    requires Typable(exprs) && k < |exprs| && GraphOk(exprs, g, k)
    requires CallsTyped(exprs, g.types, k) && LettersBound(exprs, g, k)
    ensures var r := Inferred(exprs, g, k);
      CallsTyped(exprs, r.types, k + 1) && LettersBound(exprs, r, k + 1)
  {
    assert NodeLaidOut(exprs, k);
    if exprs[k].tag == ANT_VAR {
      var tok := exprs[k].payload;
      assert Inferred(exprs, g, k) == Bound(g, k, tok);
      if LetterEntry(g.bindings, tok).Some? {
        LetterLinkTyped(exprs, g, k);
      } else {
        LetterFirst(exprs, g, k);
      }
    } else {
      CallNodeTyped(exprs, g, k);
    }
  }

  lemma LetterLinkTyped(exprs: seq<AstNode>, g: Graph, k: nat)
    requires Typable(exprs) && k < |exprs| && GraphOk(exprs, g, k)
    requires CallsTyped(exprs, g.types, k) && LettersBound(exprs, g, k)
    requires exprs[k].tag == ANT_VAR && NodeLaidOut(exprs, k) && LetterEntry(g.bindings, exprs[k].payload).Some?
    ensures var r := Bound(g, k, exprs[k].payload);
      Shaped(exprs, r) && CallsTyped(exprs, r.types, k + 1) && LettersBound(exprs, r, k + 1)
  {
    var t := g.types;
    var p := LetterEntry(g.bindings, exprs[k].payload).value;
    var r := Bound(g, k, exprs[k].payload);
    assert r == g.(types := t[k := Link(k, p)]);
    PriorLinkRefines(t, k, p);
    CallsTypedPersist(exprs, t, r.types, k);
    LettersPersist(exprs, g, r.types, k);
    LetterLinked(exprs, r, k);
  }

  lemma CallNodeTyped(exprs: seq<AstNode>, g: Graph, k: nat)
    requires Typable(exprs) && k < |exprs| && GraphOk(exprs, g, k)
    requires CallsTyped(exprs, g.types, k) && LettersBound(exprs, g, k)
    requires exprs[k].tag == ANT_CALL && NodeLaidOut(exprs, k)
    ensures var r := Inferred(exprs, g, k);
      CallsTyped(exprs, r.types, k + 1) && LettersBound(exprs, r, k + 1)
  {
    var t := g.types;
    var ifun := Callee(exprs, k);
    var r := Inferred(exprs, g, k);
    assert r == g.(types := CalleeCoerced(t, ifun, k));
    CalleeCoercedTypes(t, ifun, k);
    assert Refines(t, r.types) && CallTyped(r.types, ifun, k - 1, k);
    CallsTypedPersist(exprs, t, r.types, k);
    assert CallsTyped(exprs, r.types, k);
    CallsTypedExtend(exprs, r.types, k);
    LettersPersist(exprs, g, r.types, k);
    assert LettersBound(exprs, r, k);
    LettersExtend(exprs, r, k);
  }

  /** The application at `k` typed extends the promise to `k + 1`. */
  lemma CallsTypedExtend(exprs: seq<AstNode>, t: seq<Type>, k: nat)
    requires Typable(exprs) && |t| == |exprs| && WellFormed(t) && k < |exprs| && CallsTyped(exprs, t, k)
    requires exprs[k].tag == ANT_CALL && NodeLaidOut(exprs, k) && CallTyped(t, Callee(exprs, k), k - 1, k)
    ensures CallsTyped(exprs, t, k + 1)
  {
  }


  /** A letter already bound: the bindings are unchanged and the new node joined the class. */
  lemma LetterLinked(exprs: seq<AstNode>, g: Graph, k: nat)
    requires Typable(exprs) && k < |exprs| && Shaped(exprs, g)
    requires LettersBound(exprs, g, k) && exprs[k].tag == ANT_VAR && NodeLaidOut(exprs, k)
    requires var e := LetterEntry(g.bindings, exprs[k].payload);
      e.Some? && e.value < |exprs| && Find(g.types, k) == Find(g.types, e.value)
    ensures LettersBound(exprs, g, k + 1)
  {
  }

  /** An application adds no letter. */
  lemma LettersExtend(exprs: seq<AstNode>, g: Graph, k: nat)
    requires Typable(exprs) && k < |exprs| && Shaped(exprs, g)
    requires LettersBound(exprs, g, k) && exprs[k].tag == ANT_CALL
    ensures LettersBound(exprs, g, k + 1)
  {
  }

  /** A letter's first occurrence: its entry now names it. */
  lemma LetterFirst(exprs: seq<AstNode>, g: Graph, k: nat)
    requires Typable(exprs) && k < |exprs| && GraphOk(exprs, g, k) && Shaped(exprs, g) && LettersBound(exprs, g, k)
    requires exprs[k].tag == ANT_VAR && NodeLaidOut(exprs, k)
    requires LetterEntry(g.bindings, exprs[k].payload).None?
    ensures var r := Bound(g, k, exprs[k].payload);
      Shaped(exprs, r) && LettersBound(exprs, r, k + 1)
  {
    var tok := exprs[k].payload;
    var r := Bound(g, k, tok);
    assert r.types == g.types;
    assert FirstLetter(exprs, k, tok);
    assert LetterEntry(r.bindings, tok) == Some(k);
    forall tok' | 0 <= tok' < NUM_LETTERS
      ensures LetterBound(exprs, LetterEntry(r.bindings, tok'), tok', k + 1)
    {
      if tok' != tok {
        assert LetterEntry(r.bindings, tok') == LetterEntry(g.bindings, tok');
      }
    }
  }

  // ---------------------------------------------------------------------------
  // The second loop of build_type_graph: every path made one hop

  /** Slots `0 .. k-1` found with compression, in order. */
  ghost function RelinkedUpTo(t: seq<Type>, k: nat): (r: seq<Type>)
    requires WellFormed(t) && k <= |t|
    ensures |r| == |t| && WellFormed(r)
    decreases k
  {
    if k == 0 then t else Relinked(RelinkedUpTo(t, k - 1), k - 1)
  }

  /** The slots after relink_to_first at `idx`. */
  ghost function Relinked(t: seq<Type>, idx: nat): (r: seq<Type>)
    requires WellFormed(t) && idx < |t|
    ensures |r| == |t| && WellFormed(r) && Compressed(t, r)
  {
    RelinkCompresses(t, idx);
    Relink(t, idx).0
  }

  /** Every slot below `k` is canonical or links straight to its canonical slot. */
  ghost predicate OneHopBelow(t: seq<Type>, k: nat)
    requires WellFormed(t) && k <= |t|
  {
    forall j | 0 <= j < k :: HopsOnce(t, j)
  }

  /** `r` is the slots `t` after relinking `0 .. k-1`: finer-or-equal classes, same roots, one hop below `k`. */
  ghost predicate RelinkedFacts(t: seq<Type>, r: seq<Type>, k: nat)
    requires WellFormed(t) && WellFormed(r) && |r| == |t| && k <= |t|
  {
    && Refines(t, r) && OneHopBelow(r, k)
    && forall i | 0 <= i < |t| :: Find(r, i) == Find(t, i)
  }

  lemma {:induction false} RelinkedUpToFacts(t: seq<Type>, k: nat)
    requires WellFormed(t) && k <= |t|
    ensures RelinkedFacts(t, RelinkedUpTo(t, k), k)
    decreases k
  {
    if k == 0 {
      RelinkedNothing(t);
    } else {
      RelinkedUpToFacts(t, k - 1);
      RelinkedGrow(t, RelinkedUpTo(t, k - 1), k);
    }
  }

  lemma RelinkedNothing(t: seq<Type>)
    requires WellFormed(t)
    ensures RelinkedFacts(t, RelinkedUpTo(t, 0), 0)
  {
    CoarserRefl(t);
    forall r | 0 <= r < |t| && t[r].delta > 1 ensures Carried(t, t, r) {
    }
  }

  /** Relinking slot `k - 1` extends the facts to `k`. */
  lemma RelinkedGrow(t: seq<Type>, r: seq<Type>, k: nat)
    requires WellFormed(t) && WellFormed(r) && |r| == |t| && 0 < k <= |t| && RelinkedFacts(t, r, k - 1)
    ensures RelinkedFacts(t, Relinked(r, k - 1), k)
  {
    CompressedKeepsFacts(t, r, Relinked(r, k - 1));
    OneHopRelinked(r, k);
  }

  /** Compressing a refinement of `t` that keeps `t`'s canonical slots keeps both facts. */
  lemma CompressedKeepsFacts(t: seq<Type>, r: seq<Type>, u: seq<Type>)
    requires WellFormed(t) && WellFormed(r) && |r| == |t| && Compressed(r, u)
    requires Refines(t, r) && forall i | 0 <= i < |t| :: Find(r, i) == Find(t, i)
    ensures WellFormed(u) && Refines(t, u)
    ensures forall i | 0 <= i < |t| :: Find(u, i) == Find(t, i)
  {
    CompressedRefines(r, u);
    RefinesTrans(t, r, u);
    CompressedFacts(r, u);
  }

  /** Relinking slot `k - 1` makes every slot below `k` one hop when those below `k - 1` already were. */
  lemma OneHopRelinked(r: seq<Type>, k: nat)
    requires WellFormed(r) && 0 < k <= |r| && OneHopBelow(r, k - 1)
    ensures OneHopBelow(Relinked(r, k - 1), k)
  {
    var j := k - 1;
    RelinkCompresses(r, j);
    var u := Relinked(r, j);
    CompressedFacts(r, u);
    OneHopKept(r, u, j);
    assert j + 1 == k;
  }

  /** Compression keeps one-hop slots one hop, and a freshly relinked slot `k` is one hop. */
  lemma OneHopKept(r: seq<Type>, u: seq<Type>, k: nat)
    requires WellFormed(r) && k < |r| && OneHopBelow(r, k) && Compressed(r, u) && WellFormed(u)
    requires forall j | 0 <= j < |r| :: (u[j].delta >= 0 <==> r[j].delta >= 0)
    requires r[k].delta < 0 ==> u[k].delta == Find(r, k) - k
    ensures OneHopBelow(u, k + 1)
  {
    forall j | 0 <= j < k + 1 && u[j].delta < 0 ensures u[j + u[j].delta].delta >= 0 {
      if u[j] == r[j] && j < k {
        assert HopsOnce(r, j);
      } else {
        assert r[Find(r, j)].delta >= 0;
      }
    }
  }

  /** The graph build_type_graph returns. */
  ghost function Built(exprs: seq<AstNode>): (g: Graph)
    requires Typable(exprs)
    ensures Shaped(exprs, g)
  {
    var g := BuiltPrefix(exprs, |exprs|);
    g.(types := RelinkedUpTo(g.types, |exprs|))
  }

  /**
   * The finished graph: every path is one hop, every application's callee is a
   * function from its argument to the application, and every letter shares
   * its first occurrence's class.
   */
  lemma BuiltTyped(exprs: seq<AstNode>)
    requires Typable(exprs)
    ensures var g := Built(exprs);
      && OneHop(g.types)
      && CallsTyped(exprs, g.types, |exprs|)
      && LettersBound(exprs, g, |exprs|)
  {
    var g := BuiltPrefix(exprs, |exprs|);
    BuiltPrefixTyped(exprs, |exprs|);
    RelinkedUpToFacts(g.types, |exprs|);
    var u := RelinkedUpTo(g.types, |exprs|);
    CallsTypedPersist(exprs, g.types, u, |exprs|);
    LettersPersist(exprs, g, u, |exprs|);
  }

  /** Read through first_occurrence: an application's callee has a function type from its argument's type to its own. */
  lemma ApplicationTyped(exprs: seq<AstNode>, c: nat)
    requires Typable(exprs) && c < |exprs| && exprs[c].tag == ANT_CALL
    ensures var t := Built(exprs).types;
      NodeLaidOut(exprs, c) && OneHop(t) &&
      var v := AsFunType(t, FirstOccurrence(t, Callee(exprs, c)));
      && v.MonoFun?
      && FirstOccurrence(t, v.arg) == FirstOccurrence(t, c - 1)
      && FirstOccurrence(t, v.ret) == FirstOccurrence(t, c)
  {
    assert NodeLaidOut(exprs, c);
    BuiltTyped(exprs);
    var t := Built(exprs).types;
    var f := Callee(exprs, c);
    assert CallTyped(t, f, c - 1, c);
    var r := FirstOccurrence(t, f);
    assert r == Find(t, f) && t[r].delta > 1;
    var v := AsFunType(t, r);
    assert v.arg == Arg(t, r) && v.ret == Ret(t, r);
    assert FirstOccurrence(t, v.arg) == Find(t, v.arg);
    assert FirstOccurrence(t, v.ret) == Find(t, v.ret);
  }

  /** Read through first_occurrence: two occurrences of one letter have the same type. */
  lemma SameLetterSameType(exprs: seq<AstNode>, i: nat, j: nat)
    requires Typable(exprs) && i < |exprs| && j < |exprs|
    requires exprs[i].tag == ANT_VAR && exprs[j] == exprs[i]
    ensures var t := Built(exprs).types;
      OneHop(t) && FirstOccurrence(t, i) == FirstOccurrence(t, j)
  {
    BuiltTyped(exprs);
    assert NodeLaidOut(exprs, i) && NodeLaidOut(exprs, j);
  }

  // ---------------------------------------------------------------------------
  // coerce_lambda

  /** The slot coerce_lambda writes: a polymorphic function one slot down from its return. */
  const LAMBDA_SLOT: Type := Type(1, -1)

  /** A lambda's slot reads back as a polymorphic function from its parameter slot to its body. */
  lemma LambdaSlotDecodes(t: seq<Type>, ifun: nat)
    requires 2 <= ifun < |t|
    ensures AsFunType(t[ifun := LAMBDA_SLOT], ifun) == PolyFun(ifun - 1, LambdaBody(ifun))
    ensures !WellFormed(t[ifun := LAMBDA_SLOT])
  {
  }

  method CoerceLambda(types: array<Type>, ifun: nat, ibody: nat)
    requires ibody + 2 == ifun && ifun < types.Length
    modifies types
    ensures types[..] == old(types[..])[ifun := LAMBDA_SLOT]
  {
    types[ifun] := LAMBDA_SLOT;
  }

  lemma RelinkedUpToNext(t: seq<Type>, k: nat)
    requires WellFormed(t) && k < |t|
    ensures RelinkedUpTo(t, k + 1) == Relink(RelinkedUpTo(t, k), k).0
  {
  }

  /** The second loop of build_type_graph: every slot found with compression, in order. */
  method RelinkAll(types: array<Type>)
    requires WellFormed(types[..])
    modifies types
    ensures types[..] == RelinkedUpTo(old(types[..]), types.Length)
  {
    ghost var t0 := types[..];
    var k := 0;
    while k < types.Length
      invariant WellFormed(t0) && |t0| == types.Length
      invariant k <= types.Length && types[..] == RelinkedUpTo(t0, k)
    {
      RelinkedUpToNext(t0, k);
      var _ := RelinkToFirst(types, k);
      k := k + 1;
    }
  }

  // ---------------------------------------------------------------------------
  // The builder's state

  /** The type graph of an expression array: its slots and its binding table. */
  class TypeGraph {
    const exprs: seq<AstNode>
    const types: array<Type>
    const bindings: array<Option<nat>>

    ghost predicate Valid()
      reads this, types, bindings
    {
      Shaped(exprs, State())
    }

    function State(): Graph
      reads this, types, bindings
    {
      Graph(types[..], bindings[..])
    }

    /** Every slot fresh and every binding empty. */
    constructor (exprs: seq<AstNode>)
      ensures this.exprs == exprs && Valid()
      ensures State() == Graph(seq(|exprs|, _ => FRESH), seq(MAX_TOKS, _ => None))
      ensures fresh(types) && fresh(bindings)
    {
      this.exprs := exprs;
      types := new Type[|exprs|](_ => FRESH);
      bindings := new Option<nat>[MAX_TOKS](_ => None);
    }

    /**
     * bind_to_typevar: fails on a token outside the table, else links `target`
     * to the token's first slot or records `target` as that slot.
     */
    method BindToTypevar(target: nat, tok: int) returns (ok: bool)
      requires Valid() && target < types.Length
      requires BindSlot(tok).Some? ==> var e := bindings[BindSlot(tok).value]; e.Some? ==> e.value < target
      modifies types, bindings
      ensures ok <==> BindSlot(tok).Some?
      ensures !ok ==> unchanged(types) && unchanged(bindings)
      ensures ok ==> State() == Bound(old(State()), target, tok)
    {
      var slot := BindSlot(tok);
      if slot.None? {
        return false;
      }
      var bidx := slot.value;
      var binding := bindings[bidx];
      if binding.Some? {
        ReplaceWithPriorLink(types, target, binding.value);
      } else {
        bindings[bidx] := Some(target);
      }
      return true;
    }

    /** infer_new_type at node `idx`. */
    method InferNewType(idx: nat)
      requires Valid() && Typable(exprs) && idx < |exprs| && GraphOk(exprs, State(), idx)
      modifies types, bindings
      ensures Valid() && State() == Inferred(exprs, old(State()), idx)
    {
      assert NodeLaidOut(exprs, idx);
      var u := Unpack(exprs, idx).value;
      match u.tag {
        case AntVar =>
          var ok := BindToTypevar(idx, u.val);
          assert ok;
        case AntCall =>
          assert u.val == Callee(exprs, idx);
          CoerceCallee(types, u.val, idx);
        case AntLambda =>
          assert false;
        case AntBound =>
          assert false;
      }
    }

    /**
     * build_type_graph: types every node in order, then relinks every slot to
     * its canonical slot.
     */
    static method Build(exprs: seq<AstNode>) returns (tg: TypeGraph)
      requires Typable(exprs)
      ensures tg.exprs == exprs && tg.Valid() && tg.State() == Built(exprs)
      ensures fresh(tg.types) && fresh(tg.bindings)
    {
      tg := new TypeGraph(exprs);
      tg.TypeNodes();
      RelinkAll(tg.types);
    }

    /** The first loop of build_type_graph: each slot cleared, then its node typed. */
    method TypeNodes()
      requires Valid() && Typable(exprs) && State() == BuiltPrefix(exprs, 0)
      modifies types, bindings
      ensures Valid() && State() == BuiltPrefix(exprs, |exprs|)
    {
      var k := 0;
      while k < |exprs|
        invariant k <= |exprs| && Valid() && State() == BuiltPrefix(exprs, k)
      {
        TypeNode(k);
        k := k + 1;
      }
    }

    /** One turn of that loop: slot `k` is reset to fresh, then node `k` is typed. */
    method TypeNode(k: nat)
      requires Valid() && Typable(exprs) && k < |exprs| && State() == BuiltPrefix(exprs, k)
      modifies types, bindings
      ensures Valid() && State() == BuiltPrefix(exprs, k + 1)
    {
      ghost var before := State();
      types[k] := FRESH;
      assert types[..] == before.types;
      assert State() == before;
      InferNewType(k);
      BuiltPrefixNext(exprs, k);
    }
  }
}

/** Two programs, `a b` and `a a`, typed end to end by the builder of TypeInfer. */
module TypeInferExamples {
  import opened Wrappers
  import opened Ast
  import opened TypeSlots
  import opened TypeInfer

  /** The postfix array of `(a b)`: the letters, then one application with a one-node argument. */
  const APPLY_A_B: seq<AstNode> := [VarNode(0), VarNode(1), CallNode(1)]

  /** The postfix array of `(a a)`. */
  const APPLY_A_A: seq<AstNode> := [VarNode(0), VarNode(0), CallNode(1)]

  lemma SmallLaidOut(exprs: seq<AstNode>)
    requires exprs == APPLY_A_B || exprs == APPLY_A_A
    ensures Typable(exprs)
  {
    assert NodeLaidOut(exprs, 0) && NodeLaidOut(exprs, 1) && NodeLaidOut(exprs, 2);
  }

  /** Three fresh slots. */
  const FRESH3: seq<Type> := [FRESH, FRESH, FRESH]

  /** The binding table with no letter seen. */
  const UNBOUND: seq<Option<nat>> := seq(MAX_TOKS, _ => None)

  /** `a`, the first node of either program, is the first occurrence of its letter. */
  lemma FirstLetterTyped(exprs: seq<AstNode>)
    requires exprs == APPLY_A_B || exprs == APPLY_A_A
    ensures Typable(exprs) && BuiltPrefix(exprs, 1) == Graph(FRESH3, UNBOUND[BIND_BASE := Some(0)])
  {
    SmallLaidOut(exprs);
    assert BuiltPrefix(exprs, 0) == Graph(FRESH3, UNBOUND);
    assert BuiltPrefix(exprs, 1) == TypedThrough(exprs, 0) == Bound(Graph(FRESH3, UNBOUND), 0, 0);
  }

  /** In `(a b)`, `b` is a new letter: its entry names node 1. */
  lemma ApplySecondTyped()
    ensures Typable(APPLY_A_B)
    ensures BuiltPrefix(APPLY_A_B, 2) == Graph(FRESH3, UNBOUND[BIND_BASE := Some(0)][BIND_BASE + 1 := Some(1)])
  {
    var exprs := APPLY_A_B;
    FirstLetterTyped(exprs);
    var g1 := Graph(FRESH3, UNBOUND[BIND_BASE := Some(0)]);
    assert BuiltPrefix(exprs, 2) == TypedThrough(exprs, 1) == Bound(g1, 1, 1);
  }

  /** In `(a a)`, the second `a` links to the first. */
  lemma SelfApplySecondTyped()
    ensures Typable(APPLY_A_A)
    ensures BuiltPrefix(APPLY_A_A, 2) == Graph([FRESH, Link(1, 0), FRESH], UNBOUND[BIND_BASE := Some(0)])
  {
    var exprs := APPLY_A_A;
    FirstLetterTyped(exprs);
    var g1 := Graph(FRESH3, UNBOUND[BIND_BASE := Some(0)]);
    assert BuiltPrefix(exprs, 2) == TypedThrough(exprs, 1) == Bound(g1, 1, 0);
  }

  /** The application node coerces slot 0, a fresh slot, into a function from slot 1 to slot 2. */
  lemma FreshCalleeCoerced()
    ensures WellFormed(FRESH3) && CalleeCoerced(FRESH3, 0, 2) == [Type(2, 1), FRESH, FRESH]
  {
    assert Relink(FRESH3, 0) == (FRESH3, 0);
    assert AsFunType(FRESH3, 0) == NotFun;
  }

  /** The same coercion when slot 1 already links to slot 0. */
  lemma LinkedCalleeCoerced()
    ensures var linked := [FRESH, Link(1, 0), FRESH];
      WellFormed(linked) && CalleeCoerced(linked, 0, 2) == [Type(2, 1), Type(-1, 0), FRESH]
  {
    var linked := [FRESH, Link(1, 0), FRESH];
    assert Relink(linked, 0) == (linked, 0);
    assert AsFunType(linked, 0) == NotFun;
  }

  /** Relinking changes nothing in the two finished graphs: their paths are already one hop. */
  lemma SmallRelinked(t: seq<Type>)
    requires t == [Type(2, 1), FRESH, FRESH] || t == [Type(2, 1), Type(-1, 0), FRESH]
    ensures WellFormed(t) && RelinkedUpTo(t, 3) == t
  {
    assert Relink(t, 0) == (t, 0);
    assert RelinkedUpTo(t, 1) == t;
    assert Relink(t, 1).0 == t;
    assert RelinkedUpTo(t, 2) == t;
    assert Relink(t, 2) == (t, 2);
  }

  /** The graph of `(a b)`: slot 0 is a function from slot 1 to slot 2. */
  lemma ApplyBuilt()
    ensures Typable(APPLY_A_B) && Built(APPLY_A_B).types == [Type(2, 1), FRESH, FRESH]
  {
    var exprs := APPLY_A_B;
    ApplySecondTyped();
    var g2 := BuiltPrefix(exprs, 2);
    FreshCalleeCoerced();
    assert BuiltPrefix(exprs, 3) == TypedThrough(exprs, 2) == g2.(types := CalleeCoerced(FRESH3, 0, 2));
    SmallRelinked([Type(2, 1), FRESH, FRESH]);
  }

  /** The graph of `(a a)`: slot 1 links to slot 0, a function from itself to slot 2. */
  lemma SelfApplyBuilt()
    ensures Typable(APPLY_A_A) && Built(APPLY_A_A).types == [Type(2, 1), Type(-1, 0), FRESH]
  {
    var exprs := APPLY_A_A;
    SelfApplySecondTyped();
    var g2 := BuiltPrefix(exprs, 2);
    LinkedCalleeCoerced();
    assert BuiltPrefix(exprs, 3) == TypedThrough(exprs, 2) == g2.(types := CalleeCoerced(g2.types, 0, 2));
    SmallRelinked([Type(2, 1), Type(-1, 0), FRESH]);
  }
}
