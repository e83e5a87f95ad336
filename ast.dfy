/**
 * The abstract syntax tree of the lambda language: a flat array of nodes in
 * postfix order, where a node's children occupy a contiguous block of lower
 * indices and tree edges are recovered by index arithmetic.
 */
module Ast {
  import opened Wrappers

  /** Numeric codes of the node tags (the C enum starts at 1). */
  const ANT_VAR: nat := 1
  const ANT_CALL: nat := 2
  const ANT_LAMBDA: nat := 3
  const ANT_BOUND: nat := 4

  /** Number of distinct variable letters, 'a' .. 'z'. */
  const NUM_LETTERS: nat := 26

  datatype AstNodeType = AntVar | AntCall | AntLambda | AntBound

  function TagCode(t: AstNodeType): nat
  {
    match t
    case AntVar => ANT_VAR
    case AntCall => ANT_CALL
    case AntLambda => ANT_LAMBDA
    case AntBound => ANT_BOUND
  }

  /**
   * One node: its raw tag and the 32-bit payload that the C union shares
   * between VAR.token, CALL.arg_size and BOUND.depth.
   */
  datatype AstNode = AstNode(tag: nat, payload: int)

  function VarNode(token: int): AstNode { AstNode(ANT_VAR, token) }
  function CallNode(argSize: int): AstNode { AstNode(ANT_CALL, argSize) }

  /** Internal-consistency faults on which the C program aborts. */
  datatype Fault =
    | BadTag(idx: nat, tag: nat)
    | LambdaWithoutArgSlot(idx: nat)
    | LambdaArgNotVar(idx: nat, tag: nat)

  /** A decoded node: its tag and the one value the tag carries. */
  datatype Unpacked = Unpacked(tag: AstNodeType, val: int)

  predicate KnownTag(tag: nat)
  {
    ANT_VAR <= tag <= ANT_BOUND
  }

  /**
   * Decodes node `idx`: a CALL yields the index of its callee root, a VAR its
   * token, a BOUND its depth and a LAMBDA the token of its parameter node, which
   * must sit just below it.
   */
  function Unpack(nodes: seq<AstNode>, idx: nat): (r: Result<Unpacked, Fault>)
    requires idx < |nodes|
    ensures r.Success? <==>
              KnownTag(nodes[idx].tag) &&
              (nodes[idx].tag == ANT_LAMBDA ==> idx >= 1 && nodes[idx - 1].tag == ANT_VAR)
    ensures r.Success? ==> TagCode(r.value.tag) == nodes[idx].tag
    ensures r.Success? && r.value.tag == AntCall ==>
              r.value.val + nodes[idx].payload + 1 == idx
    ensures r.Success? && r.value.tag == AntLambda ==> r.value.val == nodes[idx - 1].payload
    ensures r.Success? && (r.value.tag == AntVar || r.value.tag == AntBound) ==>
              r.value.val == nodes[idx].payload
  {
    var n := nodes[idx];
    if n.tag == ANT_CALL then
      Success(Unpacked(AntCall, idx - n.payload - 1))
    else if n.tag == ANT_VAR then
      Success(Unpacked(AntVar, n.payload))
    else if n.tag == ANT_LAMBDA then
      if idx < 1 then Failure(LambdaWithoutArgSlot(idx))
      else if nodes[idx - 1].tag != ANT_VAR then Failure(LambdaArgNotVar(idx, nodes[idx - 1].tag))
      else Success(Unpacked(AntLambda, nodes[idx - 1].payload))
    else if n.tag == ANT_BOUND then
      Success(Unpacked(AntBound, n.payload))
    else
      Failure(BadTag(idx, n.tag))
  }

  /** The argument root of the call at `callIdx`: the node just below it. */
  function ArgIdx(callIdx: nat): (r: nat)
    requires callIdx >= 1
    ensures r < callIdx && r + 1 == callIdx
  {
    callIdx - 1
  }

  /** The body root of the lambda at `ilambda`: below its parameter node. */
  function LambdaBody(ilambda: nat): (r: nat)
    requires ilambda >= 2
    ensures r < ilambda && r + 2 == ilambda
  {
    ilambda - 2
  }

  /**
   * The layout that decoding relies on, for node `i` alone: a VAR holds a
   * letter's token, a CALL's argument and callee blocks lie below it, a LAMBDA
   * has a parameter VAR and a body below it, and a BOUND has a depth.
   */
  predicate NodeLaidOut(nodes: seq<AstNode>, i: nat)
    requires i < |nodes|
  {
    var n := nodes[i];
    if n.tag == ANT_VAR then 0 <= n.payload < NUM_LETTERS
    else if n.tag == ANT_CALL then 1 <= n.payload && n.payload + 1 <= i
    else if n.tag == ANT_LAMBDA then i >= 2 && nodes[i - 1].tag == ANT_VAR
    else if n.tag == ANT_BOUND then 0 <= n.payload
    else false
  }

  predicate LaidOut(nodes: seq<AstNode>)
  {
    forall i | 0 <= i < |nodes| :: NodeLaidOut(nodes, i)
  }

  /** Only the node kinds the parser produces: letters and applications. */
  predicate ApplicationsOnly(nodes: seq<AstNode>)
  {
    forall i | 0 <= i < |nodes| :: nodes[i].tag == ANT_VAR || nodes[i].tag == ANT_CALL
  }

  /**
   * `s` is exactly one application tree in postfix order: a single letter, or
   * the callee tree, then the argument tree of `arg_size` nodes, then the CALL.
   */
  predicate IsTree(s: seq<AstNode>)
    decreases |s|
  {
    |s| > 0 &&
    var n := s[|s| - 1];
    if n.tag == ANT_VAR then
      |s| == 1 && 0 <= n.payload < NUM_LETTERS
    else if n.tag == ANT_CALL then
      1 <= n.payload < |s| - 1 &&
      IsTree(s[..|s| - 1 - n.payload]) &&
      IsTree(s[|s| - 1 - n.payload..|s| - 1])
    else
      false
  }

  /** Number of letter nodes in `s`. */
  function VarCount(s: seq<AstNode>): (r: nat)
    ensures r <= |s|
  {
    if s == [] then 0
    else VarCount(s[..|s| - 1]) + (if s[|s| - 1].tag == ANT_VAR then 1 else 0)
  }

  /** No VAR is counted exactly when there is none, and every node is counted exactly when all are VARs. */
  lemma {:induction false} VarCountExtremes(s: seq<AstNode>)
    ensures VarCount(s) == 0 <==> forall i | 0 <= i < |s| :: s[i].tag != ANT_VAR
    ensures VarCount(s) == |s| <==> forall i | 0 <= i < |s| :: s[i].tag == ANT_VAR
  {
    if s != [] {
      var p := s[..|s| - 1];
      VarCountExtremes(p);
      assert forall i | 0 <= i < |p| :: p[i] == s[i];
    }
  }

  lemma {:induction false} VarCountAppend(s: seq<AstNode>, t: seq<AstNode>)
    ensures VarCount(s + t) == VarCount(s) + VarCount(t)
    decreases |t|
  {
    if t == [] {
      assert s + t == s;
    } else {
      var t' := t[..|t| - 1];
      assert (s + t)[..|s + t| - 1] == s + t';
      VarCountAppend(s, t');
    }
  }

  /**
   * Decoding the CALL at the top of a tree yields the index where the callee
   * tree ends; the callee tree occupies everything up to that index and the
   * argument tree the block from there up to ArgIdx, just below the call.
   */
  lemma CallDecodesToSubtrees(s: seq<AstNode>)
    requires IsTree(s) && s[|s| - 1].tag == ANT_CALL
    ensures Unpack(s, |s| - 1).Success?
    ensures Unpack(s, |s| - 1).value.val + 1 == |s| - 1 - s[|s| - 1].payload
    ensures var m := |s| - 1 - s[|s| - 1].payload;
      0 < m <= ArgIdx(|s| - 1) && IsTree(s[..m]) && IsTree(s[m..|s| - 1])
  {
    assert Unpack(s, |s| - 1) == Success(Unpacked(AntCall, |s| - 2 - s[|s| - 1].payload));
  }

  /** Every node of a tree is laid out as decoding expects, and a tree of v letters has 2v-1 nodes. */
  lemma {:induction false} TreeLaidOut(s: seq<AstNode>)
    requires IsTree(s)
    ensures LaidOut(s) && ApplicationsOnly(s)
    ensures |s| == 2 * VarCount(s) - 1
    decreases |s|
  {
    var n := s[|s| - 1];
    if n.tag == ANT_CALL {
      var m := |s| - 1 - n.payload;
      var f, a := s[..m], s[m..|s| - 1];
      TreeLaidOut(f);
      TreeLaidOut(a);
      assert s == f + a + [n];
      VarCountAppend(f, a);
      VarCountAppend(f + a, [n]);
      assert VarCount([n]) == 0 by {
        assert [n][..0] == [];
      }
      forall i | 0 <= i < |s|
        ensures NodeLaidOut(s, i) && (s[i].tag == ANT_VAR || s[i].tag == ANT_CALL)
      {
        if i < m {
          assert s[i] == f[i] && NodeLaidOut(f, i);
        } else if i < |s| - 1 {
          assert s[i] == a[i - m] && NodeLaidOut(a, i - m);
        }
      }
    } else {
      assert s[..0] == [];
    }
  }
}
