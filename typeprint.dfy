/**
 * Printing a slot of the type graph: the base name read off the expression
 * array, then the expansion of a function type into its argument and return,
 * with a stack of the function slots being expanded so that a cyclic type is
 * printed finitely.
 */
module TypePrint {
  import opened Wrappers
  import opened Ast
  import opened TypeSlots
  import opened TypeInfer

  /** Entries of the unparser's stack (`MAX_DEPTH` in type.c). */
  const MAX_DEPTH: nat := 16

  // ---------------------------------------------------------------------------
  // print_typename

  /** The node reached from `idx` by unwrapping application callees. */
  function Head(exprs: seq<AstNode>, idx: nat): (r: nat)
    requires LaidOut(exprs) && idx < |exprs|
    ensures r <= idx && exprs[r].tag != ANT_CALL
    ensures exprs[idx].tag != ANT_CALL ==> r == idx
    decreases idx
  {
    assert NodeLaidOut(exprs, idx);
    if exprs[idx].tag == ANT_CALL then Head(exprs, Unpack(exprs, idx).value.val) else idx
  }

  /** How many application callees are unwrapped from `idx` to reach its head. */
  function Unwraps(exprs: seq<AstNode>, idx: nat): (r: nat)
    requires LaidOut(exprs) && idx < |exprs|
    ensures r == 0 <==> exprs[idx].tag != ANT_CALL
    decreases idx
  {
    assert NodeLaidOut(exprs, idx);
    if exprs[idx].tag == ANT_CALL then 1 + Unwraps(exprs, Unpack(exprs, idx).value.val) else 0
  }

  /**
   * The byte written for a decoded non-application node: the letter counted
   * from 'A' by the token, or the digit counted from '1' by a bound depth;
   * fputc keeps the low byte.
   */
  function HeadChar(u: Unpacked): char
  {
    var base := if u.tag == AntBound then '1' as int else 'A' as int;
    ((base + u.val) % 256) as char
  }

  /** The first character of the name of `idx`: its head node's letter. */
  function HeadName(exprs: seq<AstNode>, idx: nat): char
    requires LaidOut(exprs) && idx < |exprs|
  {
    var h := Head(exprs, idx);
    assert NodeLaidOut(exprs, h);
    HeadChar(Unpack(exprs, h).value)
  }

  /** The name print_typename writes for `idx`: its head's letter, then one 'r' per unwrapped application. */
  function TypeName(exprs: seq<AstNode>, idx: nat): (r: seq<char>)
    requires LaidOut(exprs) && idx < |exprs|
  {
    [HeadName(exprs, idx)] + seq(Unwraps(exprs, idx), _ => 'r')
  }

  /** A letter is named by its own capital. */
  lemma LetterName(exprs: seq<AstNode>, i: nat)
    requires LaidOut(exprs) && i < |exprs| && exprs[i].tag == ANT_VAR
    ensures var tok := exprs[i].payload;
      0 <= tok < NUM_LETTERS && TypeName(exprs, i) == [('A' as int + tok) as char]
    ensures 'A' <= TypeName(exprs, i)[0] <= 'Z'
  {
    assert NodeLaidOut(exprs, i);
  }

  /** An application is named by its callee's name with one more 'r'. */
  lemma CallName(exprs: seq<AstNode>, c: nat)
    requires LaidOut(exprs) && c < |exprs| && exprs[c].tag == ANT_CALL
    ensures NodeLaidOut(exprs, c) && c - exprs[c].payload - 1 >= 0
    ensures TypeName(exprs, c) == TypeName(exprs, c - exprs[c].payload - 1) + ['r']
  {
    assert NodeLaidOut(exprs, c);
    var f := c - exprs[c].payload - 1;
    assert Unpack(exprs, c).value.val == f;
    assert seq(Unwraps(exprs, c), _ => 'r') == seq(Unwraps(exprs, f), _ => 'r') + ['r'];
  }

  /** Reads a name back: its first character and its count of trailing 'r's. */
  function ReadTypeName(s: seq<char>): (r: Option<(char, nat)>)
    ensures r.Some? ==> |s| == 1 + r.value.1 && s[0] == r.value.0
  {
    if |s| >= 1 && forall i | 1 <= i < |s| :: s[i] == 'r' then Some((s[0], |s| - 1)) else None
  }

  /** A name reads back as its head letter and its unwrap count. */
  lemma TypeNameReads(exprs: seq<AstNode>, idx: nat)
    requires LaidOut(exprs) && idx < |exprs|
    ensures ReadTypeName(TypeName(exprs, idx)) == Some((HeadName(exprs, idx), Unwraps(exprs, idx)))
  {
    var s := TypeName(exprs, idx);
    assert forall i | 1 <= i < |s| :: s[i] == 'r';
  }

  /** Two nodes get the same name exactly when their heads print alike and they unwrap equally often. */
  lemma SameTypeName(exprs: seq<AstNode>, i: nat, j: nat)
    requires LaidOut(exprs) && i < |exprs| && j < |exprs|
    ensures TypeName(exprs, i) == TypeName(exprs, j) <==>
              HeadName(exprs, i) == HeadName(exprs, j) && Unwraps(exprs, i) == Unwraps(exprs, j)
  {
    TypeNameReads(exprs, i);
    TypeNameReads(exprs, j);
  }

  /** Unwrapping the application at `at` reaches its callee, a decodable node with the same head and one unwrap fewer. */
  lemma UnwrapStep(exprs: seq<AstNode>, at: nat)
    requires LaidOut(exprs) && at < |exprs| && exprs[at].tag == ANT_CALL
    ensures Unpack(exprs, at).Success? && 0 <= Unpack(exprs, at).value.val < at
    ensures var c := Unpack(exprs, at).value.val;
      && Unpack(exprs, c).Success?
      && Head(exprs, c) == Head(exprs, at)
      && Unwraps(exprs, at) == 1 + Unwraps(exprs, c)
  {
    assert NodeLaidOut(exprs, at);
    assert NodeLaidOut(exprs, Unpack(exprs, at).value.val);
  }

  /** print_typename: unwraps callees counting them, then writes the head's byte and the 'r's. */
  method PrintTypename(exprs: seq<AstNode>, idx: nat) returns (name: seq<char>)
    requires LaidOut(exprs) && idx < |exprs|
    ensures name == TypeName(exprs, idx)
  {
    var k, u := UnwrapCallees(exprs, idx);
    var val := u.val;
    var tok := val + 'A' as int;
    if u.tag == AntBound {
      tok := val + '1' as int;
    }
    name := [(tok % 256) as char];
    ghost var total := k;
    while k > 0
      invariant k <= total && name == [HeadName(exprs, idx)] + seq(total - k, _ => 'r')
    {
      assert seq(total - k + 1, _ => 'r') == seq(total - k, _ => 'r') + ['r'];
      name := name + ['r'];
      k := k - 1;
    }
  }

  /** The first loop of print_typename: decodes callee after callee down to the head node, counting the applications passed. */
  method UnwrapCallees(exprs: seq<AstNode>, idx: nat) returns (k: nat, u: Unpacked)
    requires LaidOut(exprs) && idx < |exprs|
    ensures k == Unwraps(exprs, idx) && Unpack(exprs, Head(exprs, idx)) == Success(u)
  {
    k := 0;
    ghost var at: nat := idx;
    assert NodeLaidOut(exprs, idx);
    u := Unpack(exprs, idx).value;
    var val := u.val;
    while u.tag == AntCall
      invariant at < |exprs| && Unpack(exprs, at).Success? && u == Unpack(exprs, at).value && val == u.val
      invariant Head(exprs, at) == Head(exprs, idx) && k + Unwraps(exprs, at) == Unwraps(exprs, idx)
      decreases at
    {
      UnwrapStep(exprs, at);
      k := k + 1;
      at := val;
      u := Unpack(exprs, val).value;
      val := u.val;
    }
  }

  // ---------------------------------------------------------------------------
  // The expansion of function types

  /** No entry occurs twice. */
  predicate Distinct(s: seq<nat>)
  {
    forall i | 0 <= i < |s| :: s[i] !in s[..i]
  }

  /** The canonical function slots of `t`. */
  function FunSlots(t: seq<Type>): set<nat>
  {
    set i | 0 <= i < |t| && t[i].delta > 1
  }

  /** A stack of distinct function slots, as the unparser keeps it. */
  predicate Expanding(t: seq<Type>, stack: seq<nat>)
  {
    Distinct(stack) && forall x | x in stack :: x < |t| && t[x].delta > 1
  }

  lemma {:induction false} DistinctCard(s: seq<nat>)
    requires Distinct(s)
    ensures |set x: nat | x in s| == |s|
  {
    if s != [] {
      var p, last := s[..|s| - 1], s[|s| - 1];
      assert s == p + [last];
      assert Distinct(p) by {
        forall i | 0 <= i < |p| ensures p[i] !in p[..i] {
          assert p[..i] == s[..i] && p[i] == s[i];
        }
      }
      assert s[..|s| - 1] == p;
      DistinctCard(p);
      var elems := set x: nat | x in p;
      assert last !in elems;
      assert (set x: nat | x in s) == elems + {last};
      assert |elems + {last}| == |elems| + 1;
    }
  }

  /** A function slot not yet on the stack leaves room for it: the stack is shorter than the set of function slots. */
  lemma StackRoom(t: seq<Type>, stack: seq<nat>, idx: nat)
    requires Expanding(t, stack) && idx < |t| && t[idx].delta > 1 && idx !in stack
    ensures |stack| < |FunSlots(t)|
  {
    var s := stack + [idx];
    assert Distinct(s);
    DistinctCard(s);
    var elems := set x: nat | x in s;
    assert elems <= FunSlots(t);
    SubsetCard(elems, FunSlots(t));
  }

  /** A stack of distinct function slots is no longer than the set of function slots. */
  lemma StackFits(t: seq<Type>, stack: seq<nat>)
    requires Expanding(t, stack)
    ensures |stack| <= |FunSlots(t)|
  {
    DistinctCard(stack);
    var elems := set x: nat | x in stack;
    assert elems <= FunSlots(t);
    SubsetCard(elems, FunSlots(t));
  }

  /** What the printer reads: laid-out expressions and a one-hop forest with a slot per node. */
  ghost predicate Printable(exprs: seq<AstNode>, t: seq<Type>)
  {
    LaidOut(exprs) && |t| == |exprs| && WellFormed(t) && OneHop(t)
  }

  /** unparse_type_: the name of the first occurrence of `idx`'s class, then its expansion. */
  function Rendered(exprs: seq<AstNode>, t: seq<Type>, idx: nat, stack: seq<nat>): (r: seq<char>)
    requires Printable(exprs, t) && idx < |t| && Expanding(t, stack)
    ensures TypeName(exprs, Find(t, idx)) <= r
    decreases |FunSlots(t)| - |stack|, 1
  {
    var first := FirstOccurrence(t, idx);
    TypeName(exprs, first) + Expansion(exprs, t, first, stack)
  }

  /**
   * unparse_fun_expansion: nothing for a slot that is not a function or is
   * already being expanded; otherwise '=' and the argument and return in
   * parentheses, each rendered with this slot on the stack.
   */
  function Expansion(exprs: seq<AstNode>, t: seq<Type>, idx: nat, stack: seq<nat>): (r: seq<char>)
    requires Printable(exprs, t) && idx < |t| && Expanding(t, stack)
    ensures r == [] <==> t[idx].delta <= 0 || idx in stack
    decreases |FunSlots(t)| - |stack|, 0
  {
    var v := AsFunType(t, idx);
    if v.NotFun? || idx in stack then
      []
    else
      StackRoom(t, stack, idx);
      var inner := stack + [idx];
      ['=', '('] + Rendered(exprs, t, v.arg, inner) + [' '] + Rendered(exprs, t, v.ret, inner) + [')']
  }

  /**
   * How many entries rendering `idx` from `stack` pushes on top of it at
   * most: one per function slot in the deepest chain of nested expansions.
   * This bounds the depth the unparser's stack reaches.
   */
  function Nesting(t: seq<Type>, idx: nat, stack: seq<nat>): (r: nat)
    requires WellFormed(t) && OneHop(t) && idx < |t| && Expanding(t, stack)
    ensures |stack| + r <= |FunSlots(t)|
    decreases |FunSlots(t)| - |stack|, 1
  {
    ExpansionNesting(t, FirstOccurrence(t, idx), stack)
  }

  /** The nesting of an expansion: none for a slot that `Expansion` leaves empty, else one more than its deeper half. */
  function ExpansionNesting(t: seq<Type>, idx: nat, stack: seq<nat>): (r: nat)
    requires WellFormed(t) && OneHop(t) && idx < |t| && Expanding(t, stack)
    ensures |stack| + r <= |FunSlots(t)|
    ensures r == 0 <==> t[idx].delta <= 0 || idx in stack
    decreases |FunSlots(t)| - |stack|, 0
  {
    var v := AsFunType(t, idx);
    if v.NotFun? || idx in stack then
      StackFits(t, stack);
      0
    else
      StackRoom(t, stack, idx);
      var inner := stack + [idx];
      var arg, ret := Nesting(t, v.arg, inner), Nesting(t, v.ret, inner);
      1 + if arg < ret then ret else arg
  }

  /** Slots of one class print alike. */
  lemma SameClassSameText(exprs: seq<AstNode>, t: seq<Type>, i: nat, j: nat, stack: seq<nat>)
    requires Printable(exprs, t) && i < |t| && j < |t| && Expanding(t, stack)
    requires Find(t, i) == Find(t, j)
    ensures Rendered(exprs, t, i, stack) == Rendered(exprs, t, j, stack)
  {
  }

  /** A class whose function slot is already being expanded prints as its bare name: the cycle is cut. */
  lemma CycleCut(exprs: seq<AstNode>, t: seq<Type>, idx: nat, stack: seq<nat>)
    requires Printable(exprs, t) && idx < |t| && Expanding(t, stack) && Find(t, idx) in stack
    ensures Rendered(exprs, t, idx, stack) == TypeName(exprs, Find(t, idx))
  {
  }

  /** The number of occurrences of `c` in `s`. */
  function Occurrences(s: seq<char>, c: char): nat
  {
    if s == [] then 0 else Occurrences(s[..|s| - 1], c) + (if s[|s| - 1] == c then 1 else 0)
  }

  lemma {:induction false} OccurrencesAppend(a: seq<char>, b: seq<char>, c: char)
    ensures Occurrences(a + b, c) == Occurrences(a, c) + Occurrences(b, c)
    decreases |b|
  {
    if b == [] {
      assert a + b == a;
    } else {
      assert (a + b)[..|a + b| - 1] == a + b[..|b| - 1];
      OccurrencesAppend(a, b[..|b| - 1], c);
    }
  }

  /** A name over letters holds no parentheses. */
  lemma NameHasNoParens(exprs: seq<AstNode>, idx: nat)
    requires LaidOut(exprs) && ApplicationsOnly(exprs) && idx < |exprs|
    ensures Occurrences(TypeName(exprs, idx), '(') == 0 && Occurrences(TypeName(exprs, idx), ')') == 0
  {
    var h := Head(exprs, idx);
    LetterName(exprs, h);
    var rs := seq(Unwraps(exprs, idx), _ => 'r');
    RsHaveNoParens(rs);
    OccurrencesAppend([HeadName(exprs, idx)], rs, '(');
    OccurrencesAppend([HeadName(exprs, idx)], rs, ')');
    assert Occurrences([HeadName(exprs, idx)], '(') == Occurrences([], '(') + 0;
    assert Occurrences([HeadName(exprs, idx)], ')') == Occurrences([], ')') + 0;
  }

  lemma {:induction false} RsHaveNoParens(s: seq<char>)
    requires forall i | 0 <= i < |s| :: s[i] == 'r'
    ensures Occurrences(s, '(') == 0 && Occurrences(s, ')') == 0
    decreases |s|
  {
    if s != [] {
      RsHaveNoParens(s[..|s| - 1]);
    }
  }

  /** Every printed type of a letters-and-applications program has balanced parentheses. */
  lemma {:induction false} RenderedBalanced(exprs: seq<AstNode>, t: seq<Type>, idx: nat, stack: seq<nat>)
    requires Printable(exprs, t) && ApplicationsOnly(exprs) && idx < |t| && Expanding(t, stack)
    ensures Occurrences(Rendered(exprs, t, idx, stack), '(') == Occurrences(Rendered(exprs, t, idx, stack), ')')
    decreases |FunSlots(t)| - |stack|, 1
  {
    var first := FirstOccurrence(t, idx);
    NameHasNoParens(exprs, first);
    ExpansionBalanced(exprs, t, first, stack);
    OccurrencesAppend(TypeName(exprs, first), Expansion(exprs, t, first, stack), '(');
    OccurrencesAppend(TypeName(exprs, first), Expansion(exprs, t, first, stack), ')');
  }

  lemma {:induction false} ExpansionBalanced(exprs: seq<AstNode>, t: seq<Type>, idx: nat, stack: seq<nat>)
    requires Printable(exprs, t) && ApplicationsOnly(exprs) && idx < |t| && Expanding(t, stack)
    ensures Occurrences(Expansion(exprs, t, idx, stack), '(') == Occurrences(Expansion(exprs, t, idx, stack), ')')
    decreases |FunSlots(t)| - |stack|, 0
  {
    var v := AsFunType(t, idx);
    if !(v.NotFun? || idx in stack) {
      StackRoom(t, stack, idx);
      var inner := stack + [idx];
      var a := Rendered(exprs, t, v.arg, inner);
      var b := Rendered(exprs, t, v.ret, inner);
      RenderedBalanced(exprs, t, v.arg, inner);
      RenderedBalanced(exprs, t, v.ret, inner);
      ParensAround(a, b);
    }
  }

  lemma ParensAround(a: seq<char>, b: seq<char>)
    ensures var s := ['=', '('] + a + [' '] + b + [')'];
      && Occurrences(s, '(') == 1 + Occurrences(a, '(') + Occurrences(b, '(')
      && Occurrences(s, ')') == 1 + Occurrences(a, ')') + Occurrences(b, ')')
  {
    forall c: char | c == '(' || c == ')'
      ensures Occurrences(['=', '('] + a + [' '] + b + [')'], c)
              == Occurrences(['=', '('], c) + Occurrences(a, c) + Occurrences([' '], c)
                 + Occurrences(b, c) + Occurrences([')'], c)
    {
      OccurrencesAppend(['=', '('] + a + [' '] + b, [')'], c);
      OccurrencesAppend(['=', '('] + a + [' '], b, c);
      OccurrencesAppend(['=', '('] + a, [' '], c);
      OccurrencesAppend(['=', '('], a, c);
    }
    assert Occurrences(['='], '(') == 0;
    assert Occurrences(['=', '('], '(') == 1;
    assert Occurrences(['=', '('], ')') == 0;
    assert Occurrences([' '], '(') == 0 && Occurrences([' '], ')') == 0;
    assert Occurrences([')'], '(') == 0 && Occurrences([')'], ')') == 1;
  }

  // ---------------------------------------------------------------------------
  // The unparser

  /** The writes of one expansion, one piece at a time, add up to the expansion's text. */
  lemma ExpansionText(before: seq<char>, arg: seq<char>, ret: seq<char>)
    ensures before + ['='] + ['('] + arg + [' '] + ret + [')'] == before + (['=', '('] + arg + [' '] + ret + [')'])
  {
  }

  /** The printer's state: the output so far and the stack of function slots being expanded. */
  class Unparser {
    const exprs: seq<AstNode>
    const types: seq<Type>
    const stack: array<nat>
    var depth: nat
    var out: seq<char>

    /** The stack holds distinct function slots below `depth`. */
    ghost predicate Valid()
      reads this, stack
    {
      && Printable(exprs, types)
      && stack.Length == MAX_DEPTH && depth <= MAX_DEPTH && Expanding(types, stack[..depth])
    }

    constructor (exprs: seq<AstNode>, types: seq<Type>)
      requires Printable(exprs, types)
      ensures Valid() && this.exprs == exprs && this.types == types
      ensures depth == 0 && out == []
    {
      this.exprs := exprs;
      this.types := types;
      stack := new nat[MAX_DEPTH];
      depth := 0;
      out := [];
    }

    /** unparse_push: reports a slot already on the stack, else pushes it. */
    method Push(idx: nat) returns (found: bool)
      requires stack.Length == MAX_DEPTH && depth <= MAX_DEPTH
      requires idx !in stack[..depth] ==> depth < MAX_DEPTH
      modifies this, stack
      ensures found <==> idx in old(stack[..depth])
      ensures found ==> depth == old(depth) && stack[..depth] == old(stack[..depth])
      ensures !found ==> depth == old(depth) + 1 && stack[..depth] == old(stack[..depth]) + [idx]
      ensures out == old(out)
    {
      var k: nat := depth;
      while k > 0
        invariant stack.Length == MAX_DEPTH && k <= depth <= MAX_DEPTH && idx !in stack[k..depth]
      {
        k := k - 1;
        if stack[k] == idx {
          return true;
        }
      }
      assert stack[0..depth] == stack[..depth];
      stack[depth] := idx;
      depth := depth + 1;
      return false;
    }

    /** unparse_pop: drops the top entry. */
    method Pop()
      requires stack.Length == MAX_DEPTH && 1 <= depth <= MAX_DEPTH
      modifies this
      ensures depth == old(depth) - 1 && stack[..depth] == old(stack[..depth])[..depth]
      ensures out == old(out)
    {
      depth := depth - 1;
    }

    /**
     * unparse_type_: writes the rendering of `idx`'s class and leaves the
     * stack as it was; the expansions it makes must fit the stack.
     */
    method UnparseType(idx: nat)
      requires Valid() && idx < |types| && depth + Nesting(types, idx, stack[..depth]) <= MAX_DEPTH
      modifies this, stack
      ensures Valid() && depth == old(depth) && stack[..depth] == old(stack[..depth])
      ensures out == old(out) + Rendered(exprs, types, idx, old(stack[..depth]))
      decreases |FunSlots(types)| - depth, 1
    {
      var first := FirstOccurrence(types, idx);
      var name := PrintTypename(exprs, first);
      out := out + name;
      UnparseFunExpansion(first);
    }

    /** unparse_fun_expansion: expands a function slot not already on the stack. */
    method UnparseFunExpansion(idx: nat)
      requires Valid() && idx < |types| && depth + ExpansionNesting(types, idx, stack[..depth]) <= MAX_DEPTH
      modifies this, stack
      ensures Valid() && depth == old(depth) && stack[..depth] == old(stack[..depth])
      ensures out == old(out) + Expansion(exprs, types, idx, old(stack[..depth]))
      decreases |FunSlots(types)| - depth, 0
    {
      ghost var s := stack[..depth];
      var ft := AsFunType(types, idx);
      if ft.NotFun? {
        return;
      }
      if idx !in s {
        StackRoom(types, s, idx);
      }
      var found := Push(idx);
      if found {
        return;
      }
      ghost var inner := s + [idx];
      assert stack[..depth] == inner && Expanding(types, inner);
      ghost var before := out;
      ghost var arg := Rendered(exprs, types, ft.arg, inner);
      ghost var ret := Rendered(exprs, types, ft.ret, inner);
      out := out + ['='];
      out := out + ['('];
      UnparseType(ft.arg);
      out := out + [' '];
      UnparseType(ft.ret);
      out := out + [')'];
      ExpansionText(before, arg, ret);
      assert stack[..depth] == inner && inner[..|s|] == s;
      Pop();
    }
  }
}

/** The two programs of TypeInferExamples, printed end to end. */
module TypePrintExamples {
  import opened Ast
  import opened TypeSlots
  import opened TypeInfer
  import opened TypeInferExamples
  import opened TypePrint

  /** Either finished graph is printable. */
  lemma SmallPrintable(exprs: seq<AstNode>, t: seq<Type>)
    requires exprs == APPLY_A_B || exprs == APPLY_A_A
    requires t == [Type(2, 1), FRESH, FRESH] || t == [Type(2, 1), Type(-1, 0), FRESH]
    ensures Printable(exprs, t) && FunSlots(t) == {0}
  {
    SmallLaidOut(exprs);
    assert HopsOnce(t, 0) && HopsOnce(t, 1) && HopsOnce(t, 2);
  }

  /** The names in `(a b)`: `A`, `B`, and `Ar` for the application. */
  lemma ApplyNames()
    ensures LaidOut(APPLY_A_B)
    ensures TypeName(APPLY_A_B, 0) == "A" && TypeName(APPLY_A_B, 1) == "B" && TypeName(APPLY_A_B, 2) == "Ar"
  {
    var exprs := APPLY_A_B;
    SmallLaidOut(exprs);
    LetterName(exprs, 0);
    LetterName(exprs, 1);
    CallName(exprs, 2);
  }

  /** The names in `(a a)`: `A` for both letters, `Ar` for the application. */
  lemma SelfApplyNames()
    ensures LaidOut(APPLY_A_A)
    ensures TypeName(APPLY_A_A, 0) == "A" && TypeName(APPLY_A_A, 2) == "Ar"
  {
    var exprs := APPLY_A_A;
    SmallLaidOut(exprs);
    LetterName(exprs, 0);
    CallName(exprs, 2);
  }

  /** With slot 0 on the stack, the argument and return slots of `(a b)` print as bare names. */
  lemma ApplyInner(t: seq<Type>)
    requires t == [Type(2, 1), FRESH, FRESH]
    ensures Printable(APPLY_A_B, t) && Expanding(t, [0])
    ensures Rendered(APPLY_A_B, t, 1, [0]) == "B" && Rendered(APPLY_A_B, t, 2, [0]) == "Ar"
  {
    SmallPrintable(APPLY_A_B, t);
    ApplyNames();
    assert Expansion(APPLY_A_B, t, 1, [0]) == [];
    assert Expansion(APPLY_A_B, t, 2, [0]) == [];
  }

  /** `(a b)` printed: slot 0 expands once, the others are bare names. */
  lemma ApplyRendered(t: seq<Type>)
    requires t == [Type(2, 1), FRESH, FRESH]
    ensures Printable(APPLY_A_B, t)
    ensures Rendered(APPLY_A_B, t, 0, []) == "A=(B Ar)"
    ensures Rendered(APPLY_A_B, t, 1, []) == "B" && Rendered(APPLY_A_B, t, 2, []) == "Ar"
  {
    var exprs := APPLY_A_B;
    ApplyInner(t);
    ApplyNames();
    assert Expansion(exprs, t, 0, []) == "=(B Ar)";
    assert Expansion(exprs, t, 1, []) == [] && Expansion(exprs, t, 2, []) == [];
  }

  /** With slot 0 on the stack, the cycle through `a` is cut: both letters print as `A`. */
  lemma SelfApplyInner(t: seq<Type>)
    requires t == [Type(2, 1), Type(-1, 0), FRESH]
    ensures Printable(APPLY_A_A, t) && Expanding(t, [0])
    ensures Rendered(APPLY_A_A, t, 1, [0]) == "A" && Rendered(APPLY_A_A, t, 2, [0]) == "Ar"
  {
    SmallPrintable(APPLY_A_A, t);
    SelfApplyNames();
    assert FirstOccurrence(t, 1) == 0;
    assert Expansion(APPLY_A_A, t, 0, [0]) == [];
    assert Expansion(APPLY_A_A, t, 2, [0]) == [];
  }

  /** `(a a)` printed: both letters share slot 0, whose expansion stops at itself. */
  lemma SelfApplyRendered(t: seq<Type>)
    requires t == [Type(2, 1), Type(-1, 0), FRESH]
    ensures Printable(APPLY_A_A, t)
    ensures Rendered(APPLY_A_A, t, 0, []) == "A=(A Ar)" && Rendered(APPLY_A_A, t, 1, []) == "A=(A Ar)"
    ensures Rendered(APPLY_A_A, t, 2, []) == "Ar"
  {
    var exprs := APPLY_A_A;
    SelfApplyInner(t);
    SelfApplyNames();
    assert Expansion(exprs, t, 0, []) == "=(A Ar)";
    assert FirstOccurrence(t, 1) == 0;
    assert Expansion(exprs, t, 2, []) == [];
  }
}
