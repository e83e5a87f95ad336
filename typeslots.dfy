/**
 * The type-slot store: one slot per AST node, forming a union-find forest in
 * which every link is a negative offset to a strictly lower slot.  A slot with
 * a non-negative `delta` is canonical; `delta == 1` marks a polymorphic
 * function (return two slots back) and `delta > 1` a monomorphic function whose
 * return slot is `delta` ahead.  `deltaArg` locates a function's argument.
 *
 * Each routine that rewrites the array in place is a method proved equal to a
 * ghost function of the old contents; the lemmas state what those functions
 * preserve: classes only merge, and function structure is carried along.
 */
module TypeSlots {

  datatype Type = Type(delta: int, deltaArg: int)

  /** What a canonical slot says about itself. */
  datatype FunView =
    | NotFun
    | MonoFun(arg: int, ret: int)
    | PolyFun(arg: int, ret: int)

  /** The all-zero slot every node starts with: canonical, not a function. */
  const FRESH: Type := Type(0, 0)

  /** Decodes slot `idx` as a function type. */
  function AsFunType(t: seq<Type>, idx: nat): (r: FunView)
    requires idx < |t|
    ensures r.NotFun? <==> t[idx].delta <= 0
    ensures r.PolyFun? <==> t[idx].delta == 1
    ensures !r.NotFun? ==> r.arg == idx + t[idx].deltaArg
    ensures r.MonoFun? ==> r.ret > idx + 1
  {
    var d := t[idx];
    if d.delta <= 0 then NotFun
    else if d.delta == 1 then PolyFun(idx + d.deltaArg, idx - 2)
    else MonoFun(idx + d.deltaArg, idx + d.delta)
  }

  /** The slot written at `ifun` to make it a function from `iarg` to `iret`. */
  function FunSlot(ifun: int, iarg: int, iret: int): Type
  {
    Type(iret - ifun, iarg - ifun)
  }

  /** The slot written at `idx` to link it to `prior`. */
  function Link(idx: nat, prior: nat): Type
  {
    Type(prior - idx, 0)
  }

  /**
   * The relative encoding round-trips only when the return lies at least two
   * slots ahead; one slot ahead reads back as a polymorphic function returning
   * two slots back, and a return at or below the slot reads back as no function.
   */
  lemma FunSlotDecodes(t: seq<Type>, ifun: nat, iarg: int, iret: int)
    requires ifun < |t|
    ensures var v := AsFunType(t[ifun := FunSlot(ifun, iarg, iret)], ifun);
      && (iret > ifun + 1 ==> v == MonoFun(iarg, iret))
      && (iret == ifun + 1 ==> v == PolyFun(iarg, ifun - 2))
      && (iret <= ifun ==> v == NotFun)
  {
  }

  // ---------------------------------------------------------------------------
  // The forest

  /**
   * Every link points strictly downward, no slot is a polymorphic function, and
   * a monomorphic function's argument and return slots exist.
   */
  ghost predicate WellFormed(t: seq<Type>)
  {
    forall i | 0 <= i < |t| ::
      && (t[i].delta < 0 ==> 0 <= i + t[i].delta)
      && t[i].delta != 1
      && (t[i].delta > 1 ==> i + t[i].delta < |t| && 0 <= i + t[i].deltaArg < |t|)
  }

  /** The canonical slot of `i`'s class. */
  ghost function Find(t: seq<Type>, i: nat): (r: nat)
    requires WellFormed(t) && i < |t|
    ensures r <= i && t[r].delta >= 0
    decreases i
  {
    if t[i].delta >= 0 then i else Find(t, i + t[i].delta)
  }

  /** The canonical slots. */
  ghost function Canon(t: seq<Type>): set<nat>
  {
    set i | 0 <= i < |t| && t[i].delta >= 0
  }

  lemma SubsetCard(a: set<nat>, b: set<nat>)
    requires a <= b
    ensures |a| <= |b|
    ensures a < b ==> |a| < |b|
  {
    assert b == a + (b - a);
    assert a * (b - a) == {};
    if a < b {
      var x :| x in b - a;
      assert x in b - a;
    }
  }

  ghost function Arg(t: seq<Type>, r: nat): int
    requires r < |t|
  {
    r + t[r].deltaArg
  }

  ghost function Ret(t: seq<Type>, r: nat): int
    requires r < |t|
  {
    r + t[r].delta
  }

  /** `j` is visited when following links from `i`. */
  ghost predicate OnPath(t: seq<Type>, i: nat, j: nat)
    requires WellFormed(t) && i < |t|
    decreases i
  {
    j == i || (t[i].delta < 0 && OnPath(t, i + t[i].delta, j))
  }

  lemma {:induction false} OnPathFacts(t: seq<Type>, i: nat, j: nat)
    requires WellFormed(t) && i < |t| && OnPath(t, i, j)
    ensures j <= i && Find(t, j) == Find(t, i)
    decreases i
  {
    if j != i {
      OnPathFacts(t, i + t[i].delta, j);
    }
  }

  /**
   * `u` is `t` with some links redirected straight at their canonical slot; all
   * else, canonical slots included, is untouched.
   */
  ghost predicate Compressed(t: seq<Type>, u: seq<Type>)
    requires WellFormed(t)
  {
    && |u| == |t|
    && forall j | 0 <= j < |t| ::
         u[j] == t[j] || (t[j].delta < 0 && u[j].delta == Find(t, j) - j)
  }

  /** Compression keeps the forest well formed, every class and every canonical slot. */
  lemma CompressedFacts(t: seq<Type>, u: seq<Type>)
    requires WellFormed(t) && Compressed(t, u)
    ensures WellFormed(u)
    ensures forall i | 0 <= i < |t| :: Find(u, i) == Find(t, i)
    ensures forall j | 0 <= j < |t| :: (u[j].delta >= 0 <==> t[j].delta >= 0)
    ensures Canon(u) == Canon(t)
  {
    forall j | 0 <= j < |t| ensures (u[j].delta >= 0 <==> t[j].delta >= 0) {
      if u[j] != t[j] {
        assert Find(t, j) == Find(t, j + t[j].delta);
      }
    }
    forall i | 0 <= i < |t| ensures Find(u, i) == Find(t, i) {
      CompressedFind(t, u, i);
    }
  }

  lemma {:induction false} CompressedFind(t: seq<Type>, u: seq<Type>, i: nat)
    requires WellFormed(t) && Compressed(t, u) && WellFormed(u) && i < |t|
    ensures Find(u, i) == Find(t, i)
    decreases i
  {
    if u[i] == t[i] {
      if t[i].delta < 0 {
        CompressedFind(t, u, i + t[i].delta);
      }
    } else {
      var f := Find(t, i);
      assert u[f] == t[f];
    }
  }

  // ---------------------------------------------------------------------------
  // What a merge must preserve

  /** In `u`, the class of canonical function `r` of `t` is a function whose argument and return classes contain `r`'s. */
  ghost predicate Carried(t: seq<Type>, u: seq<Type>, r: nat)
    requires WellFormed(t) && WellFormed(u) && |u| == |t| && r < |t| && t[r].delta > 1
  {
    var r1 := Find(u, r);
    && u[r1].delta > 1
    && Find(u, Arg(t, r)) == Find(u, Arg(u, r1))
    && Find(u, Ret(t, r)) == Find(u, Ret(u, r1))
  }

  /**
   * `u` is a coarsening of `t` that respects function structure: every slot
   * stays in the class of its old canonical slot (classes only merge), and
   * every old function class is still a function with corresponding argument
   * and return classes.
   */
  ghost predicate Refines(t: seq<Type>, u: seq<Type>)
    requires WellFormed(t) && WellFormed(u) && |u| == |t|
  {
    Coarser(t, u) && CarriesFuns(t, u)
  }

  /** Classes only merge: every slot of `u` lies in the class of its old canonical slot. */
  ghost predicate Coarser(t: seq<Type>, u: seq<Type>)
    requires WellFormed(t) && WellFormed(u) && |u| == |t|
  {
    forall i {:trigger Find(t, i)} | 0 <= i < |t| :: Find(u, i) == Find(u, Find(t, i))
  }

  ghost predicate CarriesFuns(t: seq<Type>, u: seq<Type>)
    requires WellFormed(t) && WellFormed(u) && |u| == |t|
  {
    forall r {:trigger Carried(t, u, r)} | 0 <= r < |t| && t[r].delta > 1 :: Carried(t, u, r)
  }

  lemma CompressedRefines(t: seq<Type>, u: seq<Type>)
    requires WellFormed(t) && Compressed(t, u)
    ensures WellFormed(u) && Refines(t, u)
  {
    CompressedFacts(t, u);
    forall i | 0 <= i < |t| ensures Find(u, i) == Find(u, Find(t, i)) {
      var f := Find(t, i);
      assert Find(u, f) == Find(t, f) == f;
    }
    forall r | 0 <= r < |t| && t[r].delta > 1 ensures Carried(t, u, r) {
      assert u[r] == t[r] && Find(u, r) == r;
      assert Arg(u, r) == Arg(t, r) && Ret(u, r) == Ret(t, r);
    }
  }

  lemma RefinesTrans(t0: seq<Type>, t1: seq<Type>, t2: seq<Type>)
    requires WellFormed(t0) && WellFormed(t1) && WellFormed(t2)
    requires |t1| == |t0| && |t2| == |t0|
    requires Refines(t0, t1) && Refines(t1, t2)
    ensures Refines(t0, t2)
  {
    forall i | 0 <= i < |t0| ensures Find(t2, i) == Find(t2, Find(t0, i)) {
      var f := Find(t0, i);
      assert Find(t2, i) == Find(t2, Find(t1, i));
      assert Find(t2, f) == Find(t2, Find(t1, f));
    }
    forall r | 0 <= r < |t0| && t0[r].delta > 1 ensures Carried(t0, t2, r) {
      var r1 := Find(t1, r);
      assert Carried(t0, t1, r);
      assert Carried(t1, t2, r1);
      var r2 := Find(t2, r1);
      assert Find(t2, r) == Find(t2, r1);
      var a0, a1 := Arg(t0, r), Arg(t1, r1);
      assert Find(t2, a0) == Find(t2, Find(t1, a0));
      assert Find(t2, a1) == Find(t2, Find(t1, a1));
      var e0, e1 := Ret(t0, r), Ret(t1, r1);
      assert Find(t2, e0) == Find(t2, Find(t1, e0));
      assert Find(t2, e1) == Find(t2, Find(t1, e1));
    }
  }

  /**
   * `u` is `t` with canonical `dest` linked to canonical `repl`; other
   * canonical slots may have changed their function data but stay canonical,
   * and links are untouched.
   */
  ghost predicate LinkedAway(t: seq<Type>, u: seq<Type>, dest: nat, repl: nat)
  {
    && |u| == |t| && repl < dest < |t|
    && u[dest].delta == repl - dest
    && forall j | 0 <= j < |t| && j != dest ::
         (t[j].delta < 0 ==> u[j] == t[j]) && (t[j].delta >= 0 ==> u[j].delta >= 0)
  }

  lemma {:induction false} LinkedAwayFind(t: seq<Type>, u: seq<Type>, dest: nat, repl: nat, i: nat)
    requires WellFormed(t) && WellFormed(u) && LinkedAway(t, u, dest, repl)
    requires t[dest].delta >= 0 && t[repl].delta >= 0 && i < |t|
    ensures Find(u, i) == if Find(t, i) == dest then repl else Find(t, i)
    decreases i
  {
    if i == dest {
      assert Find(u, i) == Find(u, repl);
    } else if t[i].delta < 0 {
      LinkedAwayFind(t, u, dest, repl, i + t[i].delta);
    }
  }

  // ---------------------------------------------------------------------------
  // Find with path compression (relink_to_first)

  /**
   * Follows links from `idx` to its canonical slot, pointing every link on the
   * way straight at it; returns the new contents and the canonical slot.
   */
  ghost function Relink(t: seq<Type>, idx: nat): (r: (seq<Type>, nat))
    requires WellFormed(t) && idx < |t|
    ensures r.1 == Find(t, idx)
    ensures |r.0| == |t|
    decreases idx
  {
    if t[idx].delta >= 0 then
      (t, idx)
    else
      var p := idx + t[idx].delta;
      var (t1, first) := Relink(t, p);
      (t1[idx := t1[idx].(delta := first - idx)], first)
  }

  /** Relinking rewrites every link on the path from `idx` to point at the canonical slot, and nothing else. */
  lemma {:induction false} RelinkPath(t: seq<Type>, idx: nat)
    requires WellFormed(t) && idx < |t|
    ensures var (u, first) := Relink(t, idx);
      forall j | 0 <= j < |t| ::
        u[j] == if OnPath(t, idx, j) && t[j].delta < 0 then t[j].(delta := first - j) else t[j]
    decreases idx
  {
    if t[idx].delta < 0 {
      var p := idx + t[idx].delta;
      RelinkPath(t, p);
      assert !OnPath(t, p, idx) by {
        if OnPath(t, p, idx) { OnPathFacts(t, p, idx); }
      }
    }
  }

  /** Relinking only redirects links on the path straight at the canonical slot, `idx`'s own among them. */
  lemma RelinkCompressed(t: seq<Type>, idx: nat)
    requires WellFormed(t) && idx < |t|
    ensures var (u, first) := Relink(t, idx);
      && Compressed(t, u)
      && (t[idx].delta < 0 ==> u[idx].delta == first - idx)
  {
    var (u, first) := Relink(t, idx);
    RelinkPath(t, idx);
    forall j | 0 <= j < |t| ensures u[j] == t[j] || (t[j].delta < 0 && u[j].delta == Find(t, j) - j) {
      if OnPath(t, idx, j) {
        OnPathFacts(t, idx, j);
      }
    }
    if t[idx].delta < 0 {
      assert OnPath(t, idx, idx);
    }
  }

  /** What compression promises: the canonical slot at or below `idx`, every class kept, the path shortcut. */
  lemma RelinkCompresses(t: seq<Type>, idx: nat)
    requires WellFormed(t) && idx < |t|
    ensures var (u, first) := Relink(t, idx);
      && first <= idx && t[first].delta >= 0
      && Compressed(t, u) && WellFormed(u)
      && (forall i | 0 <= i < |t| :: Find(u, i) == Find(t, i))
      && Canon(u) == Canon(t)
      && (t[idx].delta < 0 ==> u[idx].delta == first - idx)
  {
    RelinkCompressed(t, idx);
    CompressedFacts(t, Relink(t, idx).0);
  }

  /** A second find from the same slot changes nothing: the path is already one hop. */
  lemma RelinkIdempotent(t: seq<Type>, idx: nat)
    requires WellFormed(t) && idx < |t|
    ensures var (u, first) := Relink(t, idx);
      WellFormed(u) && Relink(u, idx) == (u, first)
  {
    RelinkCompresses(t, idx);
    var (u, first) := Relink(t, idx);
    if t[idx].delta < 0 {
      assert u[first].delta >= 0;
      var p := idx + u[idx].delta;
      assert p == first;
      var (u1, f1) := Relink(u, p);
      assert u1 == u && f1 == first;
      assert u[idx].delta < 0;
      assert Relink(u, idx) == (u1[idx := u1[idx].(delta := f1 - idx)], f1);
      assert u[idx] == u[idx].(delta := first - idx);
      assert u[idx := u[idx].(delta := first - idx)] == u;
    }
  }

  method RelinkToFirst(types: array<Type>, idx: nat) returns (first: nat)
    requires WellFormed(types[..]) && idx < types.Length
    modifies types
    ensures (types[..], first) == Relink(old(types[..]), idx)
    decreases idx
  {
    var t := types[idx];
    if t.delta >= 0 {
      return idx;
    }
    first := RelinkToFirst(types, idx + t.delta);
    types[idx] := types[idx].(delta := first - idx);
  }

  // ---------------------------------------------------------------------------
  // Merging classes (unify, replace_subgraph_with_links)

  /**
   * Merges the classes of `ia` and `ib`: both are found with compression, then
   * their canonical slots are merged.
   */
  ghost function Unified(t: seq<Type>, ia: nat, ib: nat): (r: seq<Type>)
    requires WellFormed(t) && ia < |t| && ib < |t|
    ensures |r| == |t| && WellFormed(r)
    ensures Canon(r) <= Canon(t)
    ensures Find(t, ia) != Find(t, ib) ==> Canon(r) < Canon(t)
    decreases |Canon(t)|, 2
  {
    RelinkCompresses(t, ia);
    var (t1, a) := Relink(t, ia);
    RelinkCompresses(t1, ib);
    var (t2, b) := Relink(t1, ib);
    RootsMerged(t2, a, b)
  }

  /** Merges two canonical slots: the higher one is replaced by a link to the lower one. */
  ghost function RootsMerged(t: seq<Type>, a: nat, b: nat): (r: seq<Type>)
    requires WellFormed(t) && a < |t| && b < |t| && t[a].delta >= 0 && t[b].delta >= 0
    ensures |r| == |t| && WellFormed(r)
    ensures Canon(r) <= Canon(t)
    ensures a != b ==> Canon(r) < Canon(t)
    decreases |Canon(t)|, 1
  {
    if a < b then SubgraphReplaced(t, b, a)
    else if b < a then SubgraphReplaced(t, a, b)
    else t
  }

  /**
   * Replaces canonical `dest` by a link to the lower canonical `repl`.  A plain
   * `repl` first takes over a function `dest`'s argument and return; when both
   * are functions their arguments, then their returns, are merged.
   */
  ghost function SubgraphReplaced(t: seq<Type>, dest: nat, repl: nat): (r: seq<Type>)
    requires WellFormed(t) && repl < dest < |t| && t[dest].delta >= 0 && t[repl].delta >= 0
    ensures |r| == |t| && WellFormed(r)
    ensures Canon(r) < Canon(t)
    decreases |Canon(t)|, 0
  {
    var dv := AsFunType(t, dest);
    var rv := AsFunType(t, repl);
    var t1 := if rv.NotFun? && !dv.NotFun? then t[repl := FunSlot(repl, dv.arg, dv.ret)] else t;
    var t2 := t1[dest := Link(dest, repl)];
    LinkStep(t, dest, repl);
    if !rv.NotFun? && !dv.NotFun? then
      var t3 := Unified(t2, rv.arg, dv.arg);
      SubsetCard(Canon(t3), Canon(t2));
      Unified(t3, rv.ret, dv.ret)
    else
      t2
  }

  /** The slots right after the link is written, before any recursive merge. */
  ghost function LinkWritten(t: seq<Type>, dest: nat, repl: nat): seq<Type>
    requires repl < dest < |t|
  {
    var dv := AsFunType(t, dest);
    var rv := AsFunType(t, repl);
    var t1 := if rv.NotFun? && !dv.NotFun? then t[repl := FunSlot(repl, dv.arg, dv.ret)] else t;
    t1[dest := Link(dest, repl)]
  }

  lemma LinkStep(t: seq<Type>, dest: nat, repl: nat)
    requires WellFormed(t) && repl < dest < |t| && t[dest].delta >= 0 && t[repl].delta >= 0
    ensures var t2 := LinkWritten(t, dest, repl);
      && WellFormed(t2) && LinkedAway(t, t2, dest, repl)
      && Canon(t2) == Canon(t) - {dest} && |Canon(t2)| < |Canon(t)|
      && (!AsFunType(t, repl).NotFun? ==> t2[repl] == t[repl])
  {
    var t2 := LinkWritten(t, dest, repl);
    assert Canon(t2) == Canon(t) - {dest};
    SubsetCard(Canon(t2), Canon(t));
  }

  /** Linking `dest` to `repl` and then refining keeps every old slot in its old class's new class. */
  lemma CoarserThroughLink(t: seq<Type>, t2: seq<Type>, u: seq<Type>, dest: nat, repl: nat)
    requires WellFormed(t) && WellFormed(t2) && WellFormed(u) && |u| == |t|
    requires LinkedAway(t, t2, dest, repl) && t[dest].delta >= 0 && t[repl].delta >= 0
    requires Coarser(t2, u)
    ensures Coarser(t, u) && Find(u, dest) == Find(u, repl)
  {
    LinkedAwayFind(t, t2, dest, repl, dest);
    assert Find(u, dest) == Find(u, Find(t2, dest));
    forall i | 0 <= i < |t| ensures Find(u, i) == Find(u, Find(t, i)) {
      var f := Find(t, i);
      LinkedAwayFind(t, t2, dest, repl, i);
      LinkedAwayFind(t, t2, dest, repl, f);
      assert Find(u, i) == Find(u, Find(t2, i));
      assert Find(u, f) == Find(u, Find(t2, f));
    }
  }

  /** The second half of a merge of two functions: what the recursive merges give back. */
  lemma CarriesThroughLink(t: seq<Type>, t2: seq<Type>, u: seq<Type>, dest: nat, repl: nat)
    requires WellFormed(t) && repl < dest < |t| && t[dest].delta > 1 && t[repl].delta > 1
    requires WellFormed(u) && |u| == |t|
    requires t2 == t[dest := Link(dest, repl)] && WellFormed(t2) && CarriesFuns(t2, u)
    requires Find(u, dest) == Find(u, repl)
    requires Find(u, Arg(t, repl)) == Find(u, Arg(t, dest))
    requires Find(u, Ret(t, repl)) == Find(u, Ret(t, dest))
    ensures CarriesFuns(t, u)
  {
    forall r | 0 <= r < |t| && t[r].delta > 1 ensures Carried(t, u, r) {
      var r2 := if r == dest then repl else r;
      assert t2[r2] == t[r2];
      assert Carried(t2, u, r2);
      var r1 := Find(u, r2);
      assert u[r1].delta > 1;
      assert Arg(t2, r2) == Arg(t, r2) && Ret(t2, r2) == Ret(t, r2);
      assert Find(u, Arg(t, r)) == Find(u, Arg(u, r1));
      assert Find(u, Ret(t, r)) == Find(u, Ret(u, r1));
    }
  }

  /** Linking when at most one side is a function: the link alone does the merge. */
  lemma PlainLinkRefines(t: seq<Type>, dest: nat, repl: nat)
    requires WellFormed(t) && repl < dest < |t| && t[dest].delta >= 0 && t[repl].delta >= 0
    requires AsFunType(t, repl).NotFun? || AsFunType(t, dest).NotFun?
    ensures var t2 := LinkWritten(t, dest, repl);
      WellFormed(t2) && Refines(t, t2) && Find(t2, dest) == Find(t2, repl)
  {
    LinkStep(t, dest, repl);
    var t2 := LinkWritten(t, dest, repl);
    CoarserRefl(t2);
    CoarserThroughLink(t, t2, t2, dest, repl);
    PlainLinkCarries(t, dest, repl);
  }

  lemma PlainLinkCarries(t: seq<Type>, dest: nat, repl: nat)
    requires WellFormed(t) && repl < dest < |t| && t[dest].delta >= 0 && t[repl].delta >= 0
    requires AsFunType(t, repl).NotFun? || AsFunType(t, dest).NotFun?
    requires WellFormed(LinkWritten(t, dest, repl)) && LinkedAway(t, LinkWritten(t, dest, repl), dest, repl)
    ensures CarriesFuns(t, LinkWritten(t, dest, repl))
  {
    var t2 := LinkWritten(t, dest, repl);
    var dv := AsFunType(t, dest);
    forall r0 | 0 <= r0 < |t| && t[r0].delta > 1 ensures Carried(t, t2, r0) {
      LinkedAwayFind(t, t2, dest, repl, r0);
      if r0 == dest {
        assert t2[repl] == FunSlot(repl, dv.arg, dv.ret);
        assert Arg(t2, repl) == Arg(t, dest) && Ret(t2, repl) == Ret(t, dest);
      } else {
        assert t2[r0] == t[r0];
        assert Arg(t2, r0) == Arg(t, r0) && Ret(t2, r0) == Ret(t, r0);
      }
    }
  }

  lemma CoarserRefl(t: seq<Type>)
    requires WellFormed(t)
    ensures Coarser(t, t)
  {
    forall i | 0 <= i < |t| ensures Find(t, i) == Find(t, Find(t, i)) {
      var f := Find(t, i);
      assert t[f].delta >= 0;
    }
  }

  /** Merging two functions: the link, then the merge of the arguments, then of the returns. */
  lemma FunctionsMerged(t: seq<Type>, t2: seq<Type>, t3: seq<Type>, r: seq<Type>, dest: nat, repl: nat)
    requires WellFormed(t) && repl < dest < |t| && t[dest].delta > 1 && t[repl].delta > 1
    requires t2 == t[dest := Link(dest, repl)] && WellFormed(t2) && LinkedAway(t, t2, dest, repl)
    requires WellFormed(t3) && WellFormed(r) && |t3| == |t| && |r| == |t|
    requires Refines(t2, t3) && Refines(t3, r)
    requires Find(t3, Arg(t, repl)) == Find(t3, Arg(t, dest))
    requires Find(r, Ret(t, repl)) == Find(r, Ret(t, dest))
    ensures Refines(t, r) && Find(r, dest) == Find(r, repl)
  {
    RefinesTrans(t2, t3, r);
    assert Find(r, Arg(t, repl)) == Find(r, Find(t3, Arg(t, repl)));
    assert Find(r, Arg(t, dest)) == Find(r, Find(t3, Arg(t, dest)));
    CoarserThroughLink(t, t2, r, dest, repl);
    CarriesThroughLink(t, t2, r, dest, repl);
  }

  /** Merging two different canonical slots: classes only merge, structure is carried, dest and repl end in one class. */
  lemma {:induction false} SubgraphReplacedMerges(t: seq<Type>, dest: nat, repl: nat)
    requires WellFormed(t) && repl < dest < |t| && t[dest].delta >= 0 && t[repl].delta >= 0
    ensures var r := SubgraphReplaced(t, dest, repl);
      Refines(t, r) && Find(r, dest) == Find(r, repl)
    decreases |Canon(t)|, 0
  {
    var dv := AsFunType(t, dest);
    var rv := AsFunType(t, repl);
    LinkStep(t, dest, repl);
    var t2 := LinkWritten(t, dest, repl);
    if !rv.NotFun? && !dv.NotFun? {
      assert rv.arg == Arg(t, repl) && rv.ret == Ret(t, repl);
      assert dv.arg == Arg(t, dest) && dv.ret == Ret(t, dest);
      assert t2 == t[dest := Link(dest, repl)];
      var t3 := Unified(t2, rv.arg, dv.arg);
      SubsetCard(Canon(t3), Canon(t2));
      var r := Unified(t3, rv.ret, dv.ret);
      assert r == SubgraphReplaced(t, dest, repl);
      UnifiedMerges(t2, rv.arg, dv.arg);
      UnifiedMerges(t3, rv.ret, dv.ret);
      FunctionsMerged(t, t2, t3, r, dest, repl);
    } else {
      PlainLinkRefines(t, dest, repl);
    }
  }

  /**
   * After a merge `ia` and `ib` share a canonical slot, no higher than either
   * old one; classes only merge and function structure is carried.
   */
  lemma {:induction false} UnifiedMerges(t: seq<Type>, ia: nat, ib: nat)
    requires WellFormed(t) && ia < |t| && ib < |t|
    ensures var r := Unified(t, ia, ib);
      && Refines(t, r)
      && Find(r, ia) == Find(r, ib)
      && Find(r, ia) <= Find(t, ia) && Find(r, ia) <= Find(t, ib)
    decreases |Canon(t)|, 2
  {
    FindBoth(t, ia, ib);
    var (t1, a) := Relink(t, ia);
    var (t2, b) := Relink(t1, ib);
    RootsMergedMerges(t2, a, b);
    MergeAfterRelink(t, t2, RootsMerged(t2, a, b), ia, ib);
  }

  /** The two finds that open a merge: they only compress, and return the old canonical slots. */
  lemma FindBoth(t: seq<Type>, ia: nat, ib: nat)
    requires WellFormed(t) && ia < |t| && ib < |t|
    ensures var (t1, a) := Relink(t, ia);
      WellFormed(t1) &&
      var (t2, b) := Relink(t1, ib);
      && WellFormed(t2) && |t2| == |t|
      && a == Find(t, ia) && b == Find(t, ib)
      && t2[a].delta >= 0 && t2[b].delta >= 0
      && Find(t2, ia) == a && Find(t2, ib) == b
      && Refines(t, t2) && Canon(t2) == Canon(t)
      && Unified(t, ia, ib) == RootsMerged(t2, a, b)
  {
    RelinkCompressed(t, ia);
    var (t1, a) := Relink(t, ia);
    CompressedFacts(t, t1);
    RelinkCompressed(t1, ib);
    var (t2, b) := Relink(t1, ib);
    CompressedFacts(t1, t2);
    FindBothRefines(t, t1, t2, ia, ib);
  }

  lemma FindBothRefines(t: seq<Type>, t1: seq<Type>, t2: seq<Type>, ia: nat, ib: nat)
    requires WellFormed(t) && ia < |t| && ib < |t|
    requires Compressed(t, t1) && WellFormed(t1) && Compressed(t1, t2) && WellFormed(t2)
    ensures |t2| == |t| && Refines(t, t2) && Canon(t2) == Canon(t)
    ensures Find(t2, ia) == Find(t, ia) && Find(t2, ib) == Find(t, ib)
    ensures t2[Find(t, ia)].delta >= 0 && t2[Find(t, ib)].delta >= 0
  {
    CompressedRefines(t, t1);
    CompressedRefines(t1, t2);
    CompressedFacts(t, t1);
    CompressedFacts(t1, t2);
    RefinesTrans(t, t1, t2);
    var a, b := Find(t, ia), Find(t, ib);
    assert Find(t2, a) == a && Find(t2, b) == b;
  }

  /** Merging two canonical slots leaves them in one class, rooted no higher than either. */
  lemma {:induction false} RootsMergedMerges(t: seq<Type>, a: nat, b: nat)
    requires WellFormed(t) && a < |t| && b < |t| && t[a].delta >= 0 && t[b].delta >= 0
    ensures var r := RootsMerged(t, a, b);
      && Refines(t, r)
      && Find(r, a) == Find(r, b) && Find(r, a) <= a && Find(r, a) <= b
    decreases |Canon(t)|, 1
  {
    if a < b {
      SubgraphReplacedMerges(t, b, a);
    } else if b < a {
      SubgraphReplacedMerges(t, a, b);
    } else {
      CoarserRefl(t);
      forall r | 0 <= r < |t| && t[r].delta > 1 ensures Carried(t, t, r) {
      }
    }
  }

  /** Relinking, then merging the two canonical slots found, merges the classes of `ia` and `ib`. */
  lemma MergeAfterRelink(t: seq<Type>, t2: seq<Type>, r: seq<Type>, ia: nat, ib: nat)
    requires WellFormed(t) && WellFormed(t2) && WellFormed(r) && |t2| == |t| && |r| == |t|
    requires ia < |t| && ib < |t|
    requires Refines(t, t2) && Refines(t2, r)
    requires Find(t2, ia) == Find(t, ia) && Find(t2, ib) == Find(t, ib)
    requires Find(r, Find(t, ia)) == Find(r, Find(t, ib))
    requires Find(r, Find(t, ia)) <= Find(t, ia) && Find(r, Find(t, ia)) <= Find(t, ib)
    ensures Refines(t, r) && Find(r, ia) == Find(r, ib)
    ensures Find(r, ia) <= Find(t, ia) && Find(r, ia) <= Find(t, ib)
  {
    RefinesTrans(t, t2, r);
    assert Find(r, ia) == Find(r, Find(t2, ia));
    assert Find(r, ib) == Find(r, Find(t2, ib));
  }

  /** Merging two slots already in one class only compresses paths. */
  lemma UnifiedSameClass(t: seq<Type>, ia: nat, ib: nat)
    requires WellFormed(t) && ia < |t| && ib < |t| && Find(t, ia) == Find(t, ib)
    ensures Compressed(t, Unified(t, ia, ib))
  {
    RelinkCompresses(t, ia);
    var (t1, a) := Relink(t, ia);
    RelinkCompresses(t1, ib);
    CompressedFacts(t, t1);
  }

  method ReplaceWithPriorLink(types: array<Type>, idx: nat, prior: nat)
    requires prior < idx < types.Length
    modifies types
    ensures types[..] == old(types[..])[idx := Link(idx, prior)]
  {
    types[idx] := Link(idx, prior);
  }

  method ReplaceWithFun(types: array<Type>, ifun: nat, iarg: int, iret: int)
    requires ifun < types.Length
    modifies types
    ensures types[..] == old(types[..])[ifun := FunSlot(ifun, iarg, iret)]
  {
    types[ifun] := FunSlot(ifun, iarg, iret);
  }

  method Unify(types: array<Type>, ia: nat, ib: nat)
    requires WellFormed(types[..]) && ia < types.Length && ib < types.Length
    modifies types
    ensures types[..] == Unified(old(types[..]), ia, ib)
    decreases |Canon(types[..])|, 2
  {
    ghost var t := types[..];
    FindBoth(t, ia, ib);
    var a := RelinkToFirst(types, ia);
    var b := RelinkToFirst(types, ib);
    assert Canon(types[..]) == Canon(t);
    assert Unified(t, ia, ib) == RootsMerged(types[..], a, b);
    if a < b {
      ReplaceSubgraphWithLinks(types, b, a);
    } else if b < a {
      ReplaceSubgraphWithLinks(types, a, b);
    }
  }

  method ReplaceSubgraphWithLinks(types: array<Type>, dest: nat, repl: nat)
    requires WellFormed(types[..]) && repl < dest < types.Length
    requires types[dest].delta >= 0 && types[repl].delta >= 0
    modifies types
    ensures types[..] == SubgraphReplaced(old(types[..]), dest, repl)
    decreases |Canon(types[..])|, 0
  {
    ghost var t := types[..];
    LinkStep(t, dest, repl);
    var dv := AsFunType(types[..], dest);
    var rv := AsFunType(types[..], repl);
    var destIsFun, replIsFun := !dv.NotFun?, !rv.NotFun?;
    if !replIsFun && destIsFun {
      ReplaceWithFun(types, repl, dv.arg, dv.ret);
    }
    ReplaceWithPriorLink(types, dest, repl);
    assert types[..] == LinkWritten(t, dest, repl);
    if replIsFun && destIsFun {
      Unify(types, rv.arg, dv.arg);
      ghost var t3 := types[..];
      SubsetCard(Canon(t3), Canon(LinkWritten(t, dest, repl)));
      Unify(types, rv.ret, dv.ret);
    }
  }

  /** The canonical slot of `idx` in a fully compressed forest: at most one hop away. */
  function FirstOccurrence(t: seq<Type>, idx: nat): (r: nat)
    requires WellFormed(t) && idx < |t| && HopsOnce(t, idx)
    ensures r == Find(t, idx)
  {
    if t[idx].delta < 0 then idx + t[idx].delta else idx
  }

  /** Every slot is canonical or links directly to a canonical slot. */
  ghost predicate OneHop(t: seq<Type>)
    requires WellFormed(t)
  {
    forall i | 0 <= i < |t| :: HopsOnce(t, i)
  }

  /** Slot `i` is canonical or links directly to a canonical slot. */
  ghost predicate HopsOnce(t: seq<Type>, i: nat)
    requires WellFormed(t) && i < |t|
  {
    t[i].delta < 0 ==> t[i + t[i].delta].delta >= 0
  }
}
