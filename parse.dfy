/**
 * The parser of the lambda language: a recursive-descent reader of a
 * NUL-terminated byte string that appends the program's nodes, in postfix
 * order, to a fixed-size node array and records syntax errors newest first.
 * Application is left-nested juxtaposition, `a b c` = `(a b) c`, and
 * parentheses group without producing nodes of their own.
 */
module Parse {
  import opened Wrappers
  import opened Ast

  /** A C string of bytes: no NUL inside, every character a single byte. */
  predicate SourceText(src: seq<char>)
  {
    forall i | 0 <= i < |src| :: '\0' < src[i] && src[i] as int < 256
  }

  /** Reading the string at `i`: at or past its end sits the terminating NUL. */
  function CharAt(src: seq<char>, i: nat): char
  {
    if i < |src| then src[i] else '\0'
  }

  predicate IsLetter(c: char) { 'a' <= c <= 'z' }

  predicate IsWhite(c: char) { c == ' ' || c == '\t' || c == '\n' }

  /** The token of a letter: 'a' is 0, 'z' is 25. */
  function LetterToken(c: char): int { c as int - 'a' as int }

  predicate AllLetters(s: seq<char>) { forall i | 0 <= i < |s| :: IsLetter(s[i]) }

  predicate AllWhite(s: seq<char>) { forall i | 0 <= i < |s| :: IsWhite(s[i]) }

  /**
   * The letter index of a byte with unsigned 8-bit wrap-around: below 26
   * exactly for the lower-case letters, and then the letter's token.
   */
  function IdxFromLetter(c: char): (r: nat)
    requires c as int < 256
    ensures r < 256
    ensures r < NUM_LETTERS <==> IsLetter(c)
    ensures IsLetter(c) ==> r == LetterToken(c)
  {
    (c as int - 'a' as int) % 256
  }

  /** Skips blanks, tabs and newlines: stops at the first other byte or the NUL. */
  method EatWhite(src: seq<char>, z0: nat) returns (z: nat)
    requires z0 <= |src|
    ensures z0 <= z <= |src|
    ensures AllWhite(src[z0..z])
    ensures !IsWhite(CharAt(src, z))
    ensures z == WhiteEnd(src, z0)
  {
    z := z0;
    while IsWhite(CharAt(src, z))
      invariant z0 <= z <= |src|
      invariant AllWhite(src[z0..z])
      invariant WhiteEnd(src, z) == WhiteEnd(src, z0)
      decreases |src| - z
    {
      assert src[z0..z + 1] == src[z0..z] + [src[z]];
      z := z + 1;
    }
  }

  // ------------------------------------------------------------------
  // What the parse reads: the variables of a text, in order.

  /** Position `i` of `s` starts a maximal run of letters. */
  predicate RunStart(s: seq<char>, i: nat)
    requires i < |s|
  {
    IsLetter(s[i]) && (i == 0 || !IsLetter(s[i - 1]))
  }

  /**
   * The variables a text names, in order: one token per maximal run of
   * letters, that of the run's first letter.
   */
  function Runs(s: seq<char>): seq<int>
  {
    if s == [] then []
    else Runs(s[..|s| - 1]) + (if RunStart(s, |s| - 1) then [LetterToken(s[|s| - 1])] else [])
  }

  /** Two texts whose junction does not split a run name the variables of both in turn. */
  lemma {:induction false} RunsAppend(a: seq<char>, b: seq<char>)
    requires a == [] || b == [] || !IsLetter(a[|a| - 1]) || !IsLetter(b[0])
    ensures Runs(a + b) == Runs(a) + Runs(b)
    decreases |b|
  {
    if b == [] {
      assert a + b == a;
    } else {
      var b' := b[..|b| - 1];
      assert (a + b)[..|a + b| - 1] == a + b';
      RunsAppend(a, b');
      assert RunStart(a + b, |a + b| - 1) == RunStart(b, |b| - 1);
    }
  }

  /** A run of letters names one variable, its first letter. */
  lemma {:induction false} RunOfLetters(s: seq<char>)
    requires |s| >= 1 && AllLetters(s)
    ensures Runs(s) == [LetterToken(s[0])]
    decreases |s|
  {
    var s' := s[..|s| - 1];
    if |s| == 1 {
      assert s' == [];
    } else {
      RunOfLetters(s');
    }
  }

  /** Blanks name no variable. */
  lemma {:induction false} RunsOfWhite(s: seq<char>)
    requires AllWhite(s)
    ensures Runs(s) == []
    decreases |s|
  {
    if s != [] {
      RunsOfWhite(s[..|s| - 1]);
    }
  }

  /** The tokens of the letter nodes of `s`, in order. */
  function Tokens(s: seq<AstNode>): (r: seq<int>)
    ensures |r| == VarCount(s)
  {
    if s == [] then []
    else Tokens(s[..|s| - 1]) + (if s[|s| - 1].tag == ANT_VAR then [s[|s| - 1].payload] else [])
  }

  lemma {:induction false} TokensAppend(s: seq<AstNode>, t: seq<AstNode>)
    ensures Tokens(s + t) == Tokens(s) + Tokens(t)
    decreases |t|
  {
    if t == [] {
      assert s + t == s;
    } else {
      var t' := t[..|t| - 1];
      assert (s + t)[..|s + t| - 1] == s + t';
      TokensAppend(s, t');
    }
  }

  // ------------------------------------------------------------------
  // What a successful parse of a stretch of text leaves behind.

  /**
   * The nodes appended while reading `src[z0..z]` as one operand (a letter run
   * or a parenthesised expression) form one tree naming the text's variables
   * in order. The node count is bounded by the bytes read: this is what keeps
   * the parser inside its array of strlen+8 nodes. A letter ends the text only
   * where the next byte cannot continue its run.
   */
  ghost predicate Operand(src: seq<char>, z0: nat, z: nat, block: seq<AstNode>)
  {
    z0 < z <= |src| &&
    (IsLetter(src[z0]) || src[z0] == '(') &&
    IsTree(block) &&
    Tokens(block) == Runs(src[z0..z]) &&
    |block| + 1 + (if src[z0] == '(' then 1 else 0) <= z - z0 + (if IsLetter(CharAt(src, z)) then 0 else 1) &&
    (IsLetter(src[z - 1]) ==> !IsLetter(CharAt(src, z)))
  }

  /**
   * The nodes appended while reading `src[z0..z]` as a whole expression form
   * one tree naming the text's variables in order, with no more nodes than
   * bytes read; reading stopped at a byte that can start no further operand.
   */
  ghost predicate Expr(src: seq<char>, z0: nat, z: nat, block: seq<AstNode>)
  {
    z0 < z <= |src| &&
    !IsLetter(CharAt(src, z)) && !IsWhite(CharAt(src, z)) &&
    IsTree(block) &&
    Tokens(block) == Runs(src[z0..z]) &&
    |block| <= z - z0
  }

  /** A letter run read as a variable is an operand. */
  lemma VarOperand(src: seq<char>, z0: nat, z: nat)
    requires z0 < z <= |src| && AllLetters(src[z0..z]) && !IsLetter(CharAt(src, z))
    ensures Operand(src, z0, z, [VarNode(LetterToken(src[z0]))])
  {
    var v := VarNode(LetterToken(src[z0]));
    assert IsLetter(src[z0..z][0]);
    RunOfLetters(src[z0..z]);
    assert Tokens([v]) == [v.payload] by {
      assert [v][..0] == [];
    }
  }

  /**
   * A parenthesised expression is an operand, with or without its closing
   * parenthesis; the parentheses add no node.
   */
  lemma ParenOperand(src: seq<char>, z0: nat, zE: nat, inner: seq<AstNode>, z: nat)
    requires z0 < |src| && src[z0] == '(' && Expr(src, z0 + 1, zE, inner)
    requires z == if CharAt(src, zE) == ')' then zE + 1 else zE
    ensures Operand(src, z0, z, inner)
  {
    var body := src[z0 + 1..zE];
    assert src[z0..zE] == ['('] + body;
    RunsAppend(['('], body);
    if CharAt(src, zE) == ')' {
      assert src[z0..z] == src[z0..zE] + [')'];
      RunsAppend(src[z0..zE], [')']);
      assert Runs([')']) == [] by {
        assert [')'][..0] == [];
      }
    }
    assert Runs(['(']) == [] by {
      assert ['('][..0] == [];
    }
  }

  /** Applying one tree to another makes a tree. */
  lemma ApplicationTree(acc: seq<AstNode>, arg: seq<AstNode>)
    requires IsTree(acc) && IsTree(arg)
    ensures IsTree(acc + arg + [CallNode(|arg|)])
  {
    var s := acc + arg + [CallNode(|arg|)];
    assert s[|s| - 1] == CallNode(|arg|);
    assert s[..|s| - 1 - |arg|] == acc;
    assert s[|s| - 1 - |arg|..|s| - 1] == arg;
  }

  /** An application names the callee's variables, then the argument's. */
  lemma ApplicationTokens(acc: seq<AstNode>, arg: seq<AstNode>)
    ensures Tokens(acc + arg + [CallNode(|arg|)]) == Tokens(acc) + Tokens(arg)
  {
    var call := CallNode(|arg|);
    TokensAppend(acc, arg);
    TokensAppend(acc + arg, [call]);
    assert Tokens([call]) == [] by {
      assert [call][..0] == [];
    }
  }

  /** The variables of an operand, blanks and a following operand, read as one text. */
  lemma ApplicationText(src: seq<char>, zw: nat, z: nat, zn: nat, z1: nat)
    requires zw < z <= zn < z1 <= |src| && AllWhite(src[z..zn])
    requires zn == z && IsLetter(src[z - 1]) ==> !IsLetter(src[zn])
    ensures Runs(src[zw..z1]) == Runs(src[zw..z]) + Runs(src[zn..z1])
  {
    var left, white, right := src[zw..z], src[z..zn], src[zn..z1];
    assert src[zw..z1] == left + white + right;
    RunsOfWhite(white);
    RunsAppend(left, white);
    if zn > z {
      assert (left + white)[|left + white| - 1] == white[|white| - 1];
    } else {
      assert left + white == left;
    }
    RunsAppend(left + white, right);
  }

  /** An operand applied to the operand that follows it is again an operand. */
  lemma ApplicationOperand(src: seq<char>, zw: nat, z: nat, zn: nat, z1: nat,
                           acc: seq<AstNode>, arg: seq<AstNode>)
    requires Operand(src, zw, z, acc) && Operand(src, zn, z1, arg) && z <= zn && AllWhite(src[z..zn])
    ensures Operand(src, zw, z1, acc + arg + [CallNode(|arg|)])
    ensures |acc| + |arg| + 1 <= z1 - zw
  {
    ApplicationTree(acc, arg);
    ApplicationTokens(acc, arg);
    ApplicationText(src, zw, z, zn, z1);
  }

  /** An operand, once no further operand follows, is a whole expression. */
  lemma ExprFromOperand(src: seq<char>, z0: nat, zw: nat, z: nat, zn: nat, acc: seq<AstNode>)
    requires Operand(src, zw, z, acc) && z0 <= zw && AllWhite(src[z0..zw])
    requires z <= zn <= |src| && AllWhite(src[z..zn])
    requires !IsLetter(CharAt(src, zn)) && !IsWhite(CharAt(src, zn))
    ensures Expr(src, z0, zn, acc)
  {
    var lead, mid, trail := src[z0..zw], src[zw..z], src[z..zn];
    assert src[z0..zn] == lead + mid + trail;
    RunsOfWhite(lead);
    RunsOfWhite(trail);
    assert Runs(lead) == [] && Runs(trail) == [];
    RunsAppend(lead, mid);
    assert Runs(lead + mid) == Runs(mid);
    RunsAppend(lead + mid, trail);
  }

  // ------------------------------------------------------------------
  // The grammar: where each reading ends and which nodes it builds.

  /** The first position at or after `z` that is not blank; the NUL at the end is not blank. */
  function WhiteEnd(src: seq<char>, z: nat): (r: nat)
    requires z <= |src|
    ensures z <= r <= |src|
    decreases |src| - z
  {
    if IsWhite(CharAt(src, z)) then WhiteEnd(src, z + 1) else z
  }

  /** The end of the run of letters that starts at `z`. */
  function LetterRunEnd(src: seq<char>, z: nat): (r: nat)
    requires z <= |src|
    ensures z <= r <= |src|
    ensures IsLetter(CharAt(src, z)) ==> z < r
    decreases |src| - z
  {
    if IsLetter(CharAt(src, z)) then LetterRunEnd(src, z + 1) else z
  }

  /** Everything skipped is blank, and the byte reached is not. */
  lemma {:induction false} WhiteEndFacts(src: seq<char>, z: nat)
    requires z <= |src|
    ensures AllWhite(src[z..WhiteEnd(src, z)]) && !IsWhite(CharAt(src, WhiteEnd(src, z)))
    decreases |src| - z
  {
    if IsWhite(CharAt(src, z)) {
      WhiteEndFacts(src, z + 1);
      assert src[z..WhiteEnd(src, z)] == [src[z]] + src[z + 1..WhiteEnd(src, z + 1)];
    }
  }

  /** A run is all letters, and the byte after it is none. */
  lemma {:induction false} LetterRunFacts(src: seq<char>, z: nat)
    requires z <= |src|
    ensures AllLetters(src[z..LetterRunEnd(src, z)]) && !IsLetter(CharAt(src, LetterRunEnd(src, z)))
    decreases |src| - z
  {
    if IsLetter(CharAt(src, z)) {
      LetterRunFacts(src, z + 1);
      assert src[z..LetterRunEnd(src, z)] == [src[z]] + src[z + 1..LetterRunEnd(src, z + 1)];
    }
  }

  /** Where a reading of the source ended, and the nodes it built in postfix order. */
  datatype Parsed = Parsed(end: nat, nodes: seq<AstNode>)

  /**
   * The operand at `z0`: a run of letters builds the one VAR of its first
   * letter; `(` reads the expression after it and ends after its `)` when one
   * follows, at the expression's end otherwise; anything else is no operand.
   */
  ghost function ReadOperand(src: seq<char>, z0: nat): (r: Option<Parsed>)
    requires z0 <= |src|
    ensures r.Some? ==> z0 < r.value.end <= |src|
    decreases |src| + 1 - z0, 0
  {
    if IsLetter(CharAt(src, z0)) then
      Some(Parsed(LetterRunEnd(src, z0), [VarNode(LetterToken(src[z0]))]))
    else if CharAt(src, z0) == '(' then
      match ReadExpr(src, z0 + 1)
      case None => None
      case Some(inner) =>
        if CharAt(src, inner.end) == ')' then Some(Parsed(inner.end + 1, inner.nodes)) else Some(inner)
    else
      None
  }

  /** The expression at `z0`: blanks, a first operand, then the applications to it. */
  ghost function ReadExpr(src: seq<char>, z0: nat): (r: Option<Parsed>)
    requires z0 <= |src|
    ensures r.Some? ==> z0 < r.value.end <= |src|
    decreases |src| + 1 - z0, 2
  {
    match ReadOperand(src, WhiteEnd(src, z0))
    case None => None
    case Some(first) => Some(ReadCalls(src, first.end, first.nodes))
  }

  /**
   * Application nests to the left: after the nodes `acc` read up to `z` and
   * any blanks, a further operand is appended with one CALL whose callee is
   * everything built so far, and reading goes on; where no operand follows,
   * the expression ends.
   */
  ghost function ReadCalls(src: seq<char>, z: nat, acc: seq<AstNode>): (r: Parsed)
    requires z <= |src|
    ensures z <= r.end <= |src|
    decreases |src| + 1 - z, 1
  {
    var zn := WhiteEnd(src, z);
    match ReadOperand(src, zn)
    case None => Parsed(zn, acc)
    case Some(arg) => ReadCalls(src, arg.end, acc + arg.nodes + [CallNode(|arg.nodes|)])
  }

  /** The `(` at `z0` is followed by an expression and then by its `)`. */
  ghost predicate ParenClosed(src: seq<char>, z0: nat)
    requires z0 < |src|
  {
    var inner := ReadExpr(src, z0 + 1);
    inner.Some? && CharAt(src, inner.value.end) == ')'
  }

  /**
   * The syntax errors reading the operand at `z0` records, newest first: a
   * letter run longer than one byte; a `(` not followed by an expression and
   * its `)`, after the errors of the expression inside.
   */
  ghost function OperandErrors(src: seq<char>, z0: nat): seq<SyntaxError>
    requires z0 <= |src|
    decreases |src| + 1 - z0, 0
  {
    if IsLetter(CharAt(src, z0)) then
      if LetterRunEnd(src, z0) == z0 + 1 then [] else [MultiByteVarname(z0)]
    else if CharAt(src, z0) == '(' then
      (if ParenClosed(src, z0) then [] else [UnmatchedParen(z0)]) + ExprErrors(src, z0 + 1)
    else
      []
  }

  /** The syntax errors reading the expression at `z0` records: those of its operands, and `Expected expr` when there is no first one. */
  ghost function ExprErrors(src: seq<char>, z0: nat): seq<SyntaxError>
    requires z0 <= |src|
    decreases |src| + 1 - z0, 2
  {
    var zw := WhiteEnd(src, z0);
    match ReadOperand(src, zw)
    case None => [ExpectedExpr(zw)] + OperandErrors(src, zw)
    case Some(first) => CallsErrors(src, first.end) + OperandErrors(src, zw)
  }

  /** The syntax errors the application loop records from `z` on: those of each operand it tries, the last one included. */
  ghost function CallsErrors(src: seq<char>, z: nat): seq<SyntaxError>
    requires z <= |src|
    decreases |src| + 1 - z, 1
  {
    var zn := WhiteEnd(src, z);
    match ReadOperand(src, zn)
    case None => OperandErrors(src, zn)
    case Some(arg) => CallsErrors(src, arg.end) + OperandErrors(src, zn)
  }

  /**
   * A text without parentheses whose letters all stand alone reads without
   * syntax errors from any position where the application loop resumes.
   */
  lemma {:induction false} SingleLettersClean(src: seq<char>, z: nat)
    requires z <= |src|
    requires forall i | z <= i < |src| :: src[i] != '(' && (IsLetter(src[i]) ==> !IsLetter(CharAt(src, i + 1)))
    ensures CallsErrors(src, z) == []
    decreases |src| + 1 - z
  {
    var zn := WhiteEnd(src, z);
    if IsLetter(CharAt(src, zn)) {
      assert LetterRunEnd(src, zn + 1) == zn + 1;
      assert OperandErrors(src, zn) == [];
      SingleLettersClean(src, zn + 1);
    } else {
      assert OperandErrors(src, zn) == [];
    }
  }

  /** The same text, read as a whole expression that starts with a letter, records no error at all. */
  lemma SingleLettersExprClean(src: seq<char>, z0: nat)
    requires z0 <= |src| && IsLetter(CharAt(src, WhiteEnd(src, z0)))
    requires forall i | z0 <= i < |src| :: src[i] != '(' && (IsLetter(src[i]) ==> !IsLetter(CharAt(src, i + 1)))
    ensures ReadExpr(src, z0).Some? && ExprErrors(src, z0) == []
  {
    var zw := WhiteEnd(src, z0);
    assert LetterRunEnd(src, zw + 1) == zw + 1;
    SingleLettersClean(src, zw + 1);
  }

  /**
   * What an error recorded at `loc` says about the text there: two letters in
   * a row, a `(` without its expression and `)`, or no operand at all.
   */
  ghost predicate Justified(src: seq<char>, e: SyntaxError)
  {
    match e
    case MultiByteVarname(l) => l + 1 < |src| && IsLetter(src[l]) && IsLetter(src[l + 1])
    case UnmatchedParen(l) => l < |src| && src[l] == '(' && !ParenClosed(src, l)
    case ExpectedExpr(l) => l <= |src| && ReadOperand(src, l).None?
  }

  /** Every error the reading of an operand records is justified by the text. */
  lemma {:induction false} OperandErrorsJustified(src: seq<char>, z0: nat)
    requires z0 <= |src|
    ensures forall e | e in OperandErrors(src, z0) :: Justified(src, e)
    decreases |src| + 1 - z0, 0
  {
    if IsLetter(CharAt(src, z0)) {
      assert LetterRunEnd(src, z0) == LetterRunEnd(src, z0 + 1);
    } else if CharAt(src, z0) == '(' {
      ExprErrorsJustified(src, z0 + 1);
    }
  }

  /** Every error the reading of an expression records is justified by the text. */
  lemma {:induction false} ExprErrorsJustified(src: seq<char>, z0: nat)
    requires z0 <= |src|
    ensures forall e | e in ExprErrors(src, z0) :: Justified(src, e)
    decreases |src| + 1 - z0, 2
  {
    var zw := WhiteEnd(src, z0);
    OperandErrorsJustified(src, zw);
    match ReadOperand(src, zw)
    case None =>
    case Some(first) => CallsErrorsJustified(src, first.end);
  }

  /** Every error the application loop records is justified by the text. */
  lemma {:induction false} CallsErrorsJustified(src: seq<char>, z: nat)
    requires z <= |src|
    ensures forall e | e in CallsErrors(src, z) :: Justified(src, e)
    decreases |src| + 1 - z, 1
  {
    var zn := WhiteEnd(src, z);
    OperandErrorsJustified(src, zn);
    match ReadOperand(src, zn)
    case None =>
    case Some(arg) => CallsErrorsJustified(src, arg.end);
  }

  /** Each kind of syntax error, as the reading records it. */
  lemma ErrorExamples()
    ensures ExprErrors("a", 0) == []
    ensures ExprErrors("ab", 0) == [MultiByteVarname(0)]
    ensures ExprErrors("(a", 0) == [UnmatchedParen(0)]
    ensures ExprErrors(" ", 0) == [ExpectedExpr(1)]
  {
    assert WhiteEnd("a", 0) == 0 && LetterRunEnd("a", 1) == 1;
    assert ReadOperand("a", 1) == None && WhiteEnd("a", 1) == 1;
    assert CallsErrors("a", 1) == [];
    assert WhiteEnd("ab", 0) == 0 && LetterRunEnd("ab", 2) == 2 && LetterRunEnd("ab", 1) == 2;
    assert ReadOperand("ab", 2) == None && WhiteEnd("ab", 2) == 2;
    assert CallsErrors("ab", 2) == [];
    var p := "(a";
    assert WhiteEnd(p, 1) == 1 && LetterRunEnd(p, 2) == 2;
    assert ReadOperand(p, 1) == Some(Parsed(2, [VarNode(0)]));
    assert WhiteEnd(p, 2) == 2 && ReadOperand(p, 2) == None && OperandErrors(p, 2) == [];
    assert ReadCalls(p, 2, [VarNode(0)]) == Parsed(2, [VarNode(0)]);
    assert ReadExpr(p, 1) == Some(Parsed(2, [VarNode(0)]));
    assert CallsErrors(p, 2) == [];
    assert ExprErrors(p, 1) == [];
    assert !ParenClosed(p, 0);
    assert WhiteEnd(p, 0) == 0;
    assert WhiteEnd(" ", 1) == 1 && WhiteEnd(" ", 0) == 1;
    assert ReadOperand(" ", 1) == None && OperandErrors(" ", 1) == [];
  }

  /** One turn of the application loop, as the grammar reads it: either the last operand tried, or one more applied. */
  lemma CallsTurn(src: seq<char>, z: nat, acc: seq<AstNode>, zn: nat, more: bool, all: seq<AstNode>, arg: seq<AstNode>)
    requires z <= |src|
    requires !more ==> all == acc && zn == WhiteEnd(src, z) && ReadOperand(src, zn).None?
    requires more ==> ReadOperand(src, WhiteEnd(src, z)) == Some(Parsed(zn, arg)) && all == acc + arg + [CallNode(|arg|)]
    ensures ReadCalls(src, z, acc) == if more then ReadCalls(src, zn, all) else Parsed(zn, acc)
    ensures CallsErrors(src, z) == if more then CallsErrors(src, zn) + OperandErrors(src, WhiteEnd(src, z))
                                   else OperandErrors(src, WhiteEnd(src, z))
  {
  }

  /** A parenthesis, as the grammar reads it once the expression inside is read: closed or not, its errors and its end. */
  lemma ParenTurn(src: seq<char>, z0: nat, inner: Option<nat>, block: seq<AstNode>, r: Option<nat>)
    requires z0 < |src| && src[z0] == '('
    requires inner.None? ==> ReadExpr(src, z0 + 1).None?
    requires inner.Some? ==> ReadExpr(src, z0 + 1) == Some(Parsed(inner.value, block))
    requires r == if inner.Some? && CharAt(src, inner.value) == ')' then Some(inner.value + 1) else inner
    ensures ParenClosed(src, z0) <==> inner.Some? && CharAt(src, inner.value) == ')'
    ensures ParenClosed(src, z0) ==> OperandErrors(src, z0) == ExprErrors(src, z0 + 1)
    ensures !ParenClosed(src, z0) ==> OperandErrors(src, z0) == [UnmatchedParen(z0)] + ExprErrors(src, z0 + 1)
    ensures r.None? ==> ReadOperand(src, z0).None?
    ensures r.Some? ==> ReadOperand(src, z0) == Some(Parsed(r.value, block))
  {
    ParenRead(src, z0);
  }

  /** That reading, when there is one, is an operand. */
  lemma ParenTurnOperand(src: seq<char>, z0: nat, inner: Option<nat>, block: seq<AstNode>, r: Option<nat>)
    requires z0 < |src| && src[z0] == '('
    requires inner.Some? ==> ReadExpr(src, z0 + 1) == Some(Parsed(inner.value, block))
    requires r == if inner.Some? && CharAt(src, inner.value) == ')' then Some(inner.value + 1) else inner
    ensures r.Some? ==> Operand(src, z0, r.value, block)
  {
    if inner.Some? {
      ReadExprIsExpr(src, z0 + 1);
      ParenOperand(src, z0, inner.value, block, r.value);
    }
  }

  /** The grammar's reading of a `(` and its errors, unfolded once. */
  lemma ParenRead(src: seq<char>, z0: nat)
    requires z0 < |src| && src[z0] == '('
    ensures ReadOperand(src, z0) ==
              match ReadExpr(src, z0 + 1)
              case None => None
              case Some(e) => Some(Parsed(if CharAt(src, e.end) == ')' then e.end + 1 else e.end, e.nodes))
    ensures ParenClosed(src, z0) ==> OperandErrors(src, z0) == ExprErrors(src, z0 + 1)
    ensures !ParenClosed(src, z0) ==> OperandErrors(src, z0) == [UnmatchedParen(z0)] + ExprErrors(src, z0 + 1)
  {
    assert !IsLetter(CharAt(src, z0));
  }

  /** What the grammar reads as an operand is an operand: one tree naming the text's variables. */
  lemma {:induction false} ReadOperandIsOperand(src: seq<char>, z0: nat)
    requires z0 <= |src|
    ensures var r := ReadOperand(src, z0);
      r.Some? ==> Operand(src, z0, r.value.end, r.value.nodes)
    decreases |src| + 1 - z0, 0
  {
    if IsLetter(CharAt(src, z0)) {
      LetterRunFacts(src, z0);
      VarOperand(src, z0, LetterRunEnd(src, z0));
    } else if CharAt(src, z0) == '(' {
      ReadExprIsExpr(src, z0 + 1);
      var inner := ReadExpr(src, z0 + 1);
      if inner.Some? {
        ParenOperand(src, z0, inner.value.end, inner.value.nodes, ReadOperand(src, z0).value.end);
      }
    }
  }

  /** What the grammar reads as an expression is an expression. */
  lemma {:induction false} ReadExprIsExpr(src: seq<char>, z0: nat)
    requires z0 <= |src|
    ensures var r := ReadExpr(src, z0);
      r.Some? ==> Expr(src, z0, r.value.end, r.value.nodes)
    decreases |src| + 1 - z0, 2
  {
    var zw := WhiteEnd(src, z0);
    WhiteEndFacts(src, z0);
    ReadOperandIsOperand(src, zw);
    var first := ReadOperand(src, zw);
    if first.Some? {
      ReadCallsIsExpr(src, z0, zw, first.value.end, first.value.nodes);
    }
  }

  /** Applying an operand to whatever operands follow it yields an expression. */
  lemma {:induction false} ReadCallsIsExpr(src: seq<char>, z0: nat, zw: nat, z: nat, acc: seq<AstNode>)
    requires Operand(src, zw, z, acc) && z0 <= zw && AllWhite(src[z0..zw])
    ensures var r := ReadCalls(src, z, acc);
      Expr(src, z0, r.end, r.nodes)
    decreases |src| + 1 - z, 1
  {
    var zn := WhiteEnd(src, z);
    WhiteEndFacts(src, z);
    ReadOperandIsOperand(src, zn);
    match ReadOperand(src, zn)
    case None =>
      ExprFromOperand(src, z0, zw, z, zn, acc);
    case Some(arg) =>
      ApplicationOperand(src, zw, z, zn, arg.end, acc, arg.nodes);
      ReadCallsIsExpr(src, z0, zw, arg.end, acc + arg.nodes + [CallNode(|arg.nodes|)]);
  }

  /** `a b c` reads as `(a b) c`: the second CALL's callee is the first application. */
  lemma LeftNested()
    ensures ReadExpr("a b c", 0) == Some(Parsed(5, [VarNode(0), VarNode(1), CallNode(1), VarNode(2), CallNode(1)]))
  {
    var src := "a b c";
    var a, b, c := [VarNode(0)], [VarNode(1)], [VarNode(2)];
    assert LetterRunEnd(src, 1) == 1 && LetterRunEnd(src, 3) == 3 && LetterRunEnd(src, 5) == 5;
    assert ReadOperand(src, 0) == Some(Parsed(1, a));
    assert ReadOperand(src, 2) == Some(Parsed(3, b));
    assert ReadOperand(src, 4) == Some(Parsed(5, c));
    assert ReadOperand(src, 5) == None;
    assert WhiteEnd(src, 1) == 2 && WhiteEnd(src, 3) == 4 && WhiteEnd(src, 5) == 5;
    assert ReadCalls(src, 5, a + b + [CallNode(1)] + c + [CallNode(1)]) == Parsed(5, a + b + [CallNode(1)] + c + [CallNode(1)]);
    assert ReadCalls(src, 3, a + b + [CallNode(1)]) == ReadCalls(src, 5, a + b + [CallNode(1)] + c + [CallNode(1)]);
    assert ReadCalls(src, 1, a) == ReadCalls(src, 3, a + b + [CallNode(1)]);
    assert WhiteEnd(src, 0) == 0;
    assert ReadExpr(src, 0) == Some(ReadCalls(src, 1, a));
    assert a + b + [CallNode(1)] + c + [CallNode(1)] == [VarNode(0), VarNode(1), CallNode(1), VarNode(2), CallNode(1)];
  }

  /** `(a)` is one operand ending after its `)`; `a )` is an expression that stops before the `)`. */
  lemma ParenthesesEnd()
    ensures ReadOperand("(a)", 0) == Some(Parsed(3, [VarNode(0)]))
    ensures ReadExpr("a )", 0) == Some(Parsed(2, [VarNode(0)]))
  {
    assert LetterRunEnd("(a)", 2) == 2 && LetterRunEnd("a )", 1) == 1;
    assert ReadOperand("(a)", 1) == Some(Parsed(2, [VarNode(0)]));
    assert ReadOperand("(a)", 2) == None;
    assert ReadCalls("(a)", 2, [VarNode(0)]) == Parsed(2, [VarNode(0)]);
    assert ReadExpr("(a)", 1) == Some(Parsed(2, [VarNode(0)]));
    assert ReadOperand("a )", 0) == Some(Parsed(1, [VarNode(0)]));
    assert WhiteEnd("a )", 1) == 2;
    assert ReadOperand("a )", 2) == None;
  }

  // ------------------------------------------------------------------
  // The parser state.

  datatype SyntaxError =
    | MultiByteVarname(loc: nat)
    | UnmatchedParen(loc: nat)
    | ExpectedExpr(loc: nat)

  /** Why parsing aborts: bytes left over after the program. */
  datatype ParseFault = UnusedBytes(loc: nat)

  /** `newer` is `older` with errors pushed on its front. */
  predicate Prepended(older: seq<SyntaxError>, newer: seq<SyntaxError>)
  {
    |older| <= |newer| && newer[|newer| - |older|..] == older
  }

  lemma PrependedTrans(a: seq<SyntaxError>, b: seq<SyntaxError>, c: seq<SyntaxError>)
    requires Prepended(a, b) && Prepended(b, c)
    ensures Prepended(a, c)
  {
    assert c[|c| - |a|..] == c[|c| - |b|..][|b| - |a|..];
  }

  lemma AppendCall(prior: seq<AstNode>, block: seq<AstNode>, arg: seq<AstNode>)
    ensures prior + block + arg + [CallNode(|arg|)] == prior + (block + arg + [CallNode(|arg|)])
  {
  }

  lemma Regrouped(a: seq<SyntaxError>, b: seq<SyntaxError>, c: seq<SyntaxError>)
    ensures (a + b) + c == a + (b + c)
  {
  }

  class SyntaxTree {
    const src: seq<char>
    /** The node array; its length is the allocated node count. */
    const nodes: array<AstNode>
    var nnodes: nat
    /** Syntax errors, most recent first. */
    var errors: seq<SyntaxError>

    ghost predicate Valid()
      reads this
    {
      SourceText(src) && nodes.Length == |src| + 8 && nnodes <= nodes.Length
    }

    /** An empty AST over `src` with room for strlen+8 zeroed nodes. */
    constructor (src: seq<char>)
      requires SourceText(src)
      ensures this.src == src && Valid() && nnodes == 0 && errors == [] && fresh(nodes)
      ensures forall k | 0 <= k < nodes.Length :: nodes[k] == AstNode(0, 0)
    {
      this.src := src;
      nodes := new AstNode[|src| + 8](_ => AstNode(0, 0));
      nnodes := 0;
      errors := [];
    }

    /** The nodes written so far, in postfix order; an empty AST has none to give. */
    function Postfix(): (r: seq<AstNode>)
      requires Valid() && nnodes >= 1
      reads this, nodes
      ensures |r| == nnodes >= 1 && r[nnodes - 1] == nodes[Root()]
    {
      nodes[..nnodes]
    }

    /** The root of the AST is its last node written; an empty AST has no root. */
    function Root(): (r: nat)
      requires Valid() && nnodes >= 1
      reads this
      ensures r < nnodes <= nodes.Length && r + 1 == nnodes
    {
      nnodes - 1
    }

    /** Reserves the next `n` nodes and returns the index of the first. */
    method Alloc(n: nat) returns (u: nat)
      requires Valid() && nnodes + n <= nodes.Length
      modifies this
      ensures Valid() && u == old(nnodes) && nnodes == old(nnodes) + n && errors == old(errors)
    {
      u := nnodes;
      nnodes := u + n;
    }

    /** Records a syntax error at a location inside the source (its NUL and slack included). */
    method AddSyntaxError(e: SyntaxError)
      requires Valid() && e.loc <= |src| + 8
      modifies this
      ensures Valid() && errors == [e] + old(errors) && nnodes == old(nnodes)
    {
      errors := [e] + errors;
    }

    /**
     * Reads a variable name at `z0`: no letter gives token -1 and reads
     * nothing; otherwise the whole run of letters is read, it names the
     * variable of its first letter, and a run longer than one letter is an
     * error at its start.
     */
    method LexVarname(z0: nat) returns (token: int, z: nat)
      requires Valid() && z0 <= |src|
      modifies this
      ensures Valid() && nnodes == old(nnodes)
      ensures !IsLetter(CharAt(src, z0)) ==> token == -1 && z == z0 && errors == old(errors)
      ensures IsLetter(CharAt(src, z0)) ==>
                token == LetterToken(src[z0]) && z0 < z <= |src| &&
                AllLetters(src[z0..z]) && !IsLetter(CharAt(src, z)) && z == LetterRunEnd(src, z0) &&
                errors == if z == z0 + 1 then old(errors) else [MultiByteVarname(z0)] + old(errors)
    {
      var idx := IdxFromLetter(CharAt(src, z0));
      if idx >= NUM_LETTERS {
        token := -1;
        z := z0;
        return;
      }
      token := idx;
      z := z0 + 1;
      assert LetterRunEnd(src, z0) == LetterRunEnd(src, z);
      if IdxFromLetter(CharAt(src, z)) >= NUM_LETTERS {
        return;
      }
      AddSyntaxError(MultiByteVarname(z0));
      z := z + 1;
      while IdxFromLetter(CharAt(src, z)) < NUM_LETTERS
        invariant z0 + 2 <= z <= |src| && AllLetters(src[z0..z])
        invariant LetterRunEnd(src, z) == LetterRunEnd(src, z0)
        decreases |src| - z
      {
        assert src[z0..z + 1] == src[z0..z] + [src[z]];
        z := z + 1;
      }
    }

    /** Appends a letter node; a token beyond 'z' is fatal. */
    method PushVarname(token: int)
      requires Valid() && token + 'a' as int <= 'z' as int && nnodes < nodes.Length
      modifies this, nodes
      ensures Valid() && nodes[..nnodes] == old(nodes[..nnodes]) + [VarNode(token)]
      ensures errors == old(errors)
    {
      var pn := Alloc(1);
      nodes[pn] := VarNode(token);
    }

    /** Appends an application node whose argument tree has `argSize` nodes. */
    method PushCall(argSize: nat)
      requires Valid() && nnodes < nodes.Length
      modifies this, nodes
      ensures Valid() && nodes[..nnodes] == old(nodes[..nnodes]) + [CallNode(argSize)]
      ensures errors == old(errors)
    {
      var call := Alloc(1);
      nodes[call] := CallNode(argSize);
    }

    /**
     * Parses one operand at `z0`: a letter run, or a parenthesised expression
     * (an error is recorded when its closing parenthesis is missing). Anything
     * else is no operand and changes nothing. The nodes written are `block`,
     * appended after those already there.
     */
    method ParseNonCallExpr(z0: nat) returns (r: Option<nat>, ghost block: seq<AstNode>)
      requires Valid() && z0 <= |src| && nnodes <= z0
      modifies this, nodes
      decreases |src| + 1 - z0, 1
      ensures Valid() && nodes[..nnodes] == old(nodes[..nnodes]) + block
      ensures Prepended(old(errors), errors)
      ensures IsLetter(CharAt(src, z0)) ==>
                r.Some? && errors == if r.value == z0 + 1 then old(errors) else [MultiByteVarname(z0)] + old(errors)
      ensures r.None? ==> block == [] && ReadOperand(src, z0).None?
      ensures r.None? && CharAt(src, z0) != '(' ==> errors == old(errors)
      ensures r.None? && CharAt(src, z0) == '(' ==> |errors| > 0 && errors[0] == UnmatchedParen(z0)
      ensures r.Some? ==> nnodes <= r.value && Operand(src, z0, r.value, block)
      ensures r.Some? ==> ReadOperand(src, z0) == Some(Parsed(r.value, block))
      ensures errors == OperandErrors(src, z0) + old(errors)
    {
      var token, zE := LexVarname(z0);
      if token >= 0 {
        VarOperand(src, z0, zE);
        PushVarname(token);
        r, block := Some(zE), [VarNode(token)];
      } else if CharAt(src, z0) == '(' {
        r, block := ParseParen(z0);
      } else {
        r, block := None, [];
      }
    }

    /**
     * The parenthesis case of an operand: the expression after `(` at `z0`,
     * then its `)`. When the expression or its `)` is missing, an error is
     * recorded at the `(`, and whatever the inner expression parsed stays.
     */
    method ParseParen(z0: nat) returns (r: Option<nat>, ghost block: seq<AstNode>)
      requires Valid() && z0 <= |src| && nnodes <= z0 && CharAt(src, z0) == '('
      modifies this, nodes
      decreases |src| + 1 - z0, 0
      ensures Valid() && nodes[..nnodes] == old(nodes[..nnodes]) + block
      ensures Prepended(old(errors), errors)
      ensures r.None? ==> block == [] && ReadOperand(src, z0).None?
      ensures !ParenClosed(src, z0) ==> |errors| > 0 && errors[0] == UnmatchedParen(z0)
      ensures r.Some? ==> nnodes <= r.value && Operand(src, z0, r.value, block)
      ensures r.Some? ==> ReadOperand(src, z0) == Some(Parsed(r.value, block))
      ensures errors == OperandErrors(src, z0) + old(errors)
    {
      var inner;
      inner, block := ParseExpr(z0 + 1);
      if inner.None? || CharAt(src, inner.value) != ')' {
        ghost var errs := errors;
        AddSyntaxError(UnmatchedParen(z0));
        Regrouped([UnmatchedParen(z0)], ExprErrors(src, z0 + 1), old(errors));
        PrependedTrans(old(errors), errs, errors);
        r := inner;
      } else {
        r := Some(inner.value + 1);
      }
      ParenTurn(src, z0, inner, block, r);
      ParenTurnOperand(src, z0, inner, block, r);
    }

    /**
     * Parses an expression at `z0`: blanks, then one or more operands, each
     * further operand applied to what precedes it. Without a first operand an
     * error is recorded and nothing is parsed. The nodes written are `block`,
     * appended after those already there.
     */
    method ParseExpr(z0: nat) returns (r: Option<nat>, ghost block: seq<AstNode>)
      requires Valid() && z0 <= |src| && nnodes <= z0
      modifies this, nodes
      decreases |src| + 1 - z0, 3
      ensures Valid() && nodes[..nnodes] == old(nodes[..nnodes]) + block
      ensures Prepended(old(errors), errors)
      ensures r.None? ==> block == [] && |errors| > 0 && errors[0].ExpectedExpr? && ReadExpr(src, z0).None?
      ensures r.Some? ==> nnodes <= r.value && Expr(src, z0, r.value, block)
      ensures r.Some? ==> ReadExpr(src, z0) == Some(Parsed(r.value, block))
      ensures errors == ExprErrors(src, z0) + old(errors)
    {
      ghost var prior := nodes[..nnodes];
      var zw := EatWhite(src, z0);
      var first;
      first, block := ParseNonCallExpr(zw);
      if first.None? {
        assert ReadExpr(src, z0).None?;
        ghost var errs := errors;
        AddSyntaxError(ExpectedExpr(zw));
        Regrouped([ExpectedExpr(zw)], OperandErrors(src, zw), old(errors));
        PrependedTrans(old(errors), errs, errors);
        return None, [];
      }
      ghost var errs := errors;
      assert ReadExpr(src, z0) == Some(ReadCalls(src, first.value, block));
      var z;
      z, block := ParseCalls(z0, zw, first.value, prior, block);
      Regrouped(CallsErrors(src, first.value), OperandErrors(src, zw), old(errors));
      PrependedTrans(old(errors), errs, errors);
      r := Some(z);
    }

    /**
     * The loop of an expression: the operands read so far, `block`, end at
     * `z`; each further operand, after blanks, is applied to what precedes it
     * by appending a call node, until no operand follows. The whole
     * expression, from `z0` with its leading blanks, is then `all`.
     */
    method ParseCalls(z0: nat, zw: nat, z: nat, ghost prior: seq<AstNode>, ghost block: seq<AstNode>)
      returns (zE: nat, ghost all: seq<AstNode>)
      requires Valid() && |prior| < nnodes <= z <= |src| && |prior| <= z0 <= zw
      requires nodes[..nnodes] == prior + block
      requires Operand(src, zw, z, block) && AllWhite(src[z0..zw])
      modifies this, nodes
      decreases |src| + 1 - z0, 2
      ensures Valid() && nodes[..nnodes] == prior + all
      ensures Prepended(old(errors), errors)
      ensures nnodes <= zE && Expr(src, z0, zE, all)
      ensures Parsed(zE, all) == ReadCalls(src, z, block)
      ensures errors == CallsErrors(src, z) + old(errors)
    {
      zE, all := z, block;
      while true
        invariant Valid() && |prior| < nnodes <= zE <= |src|
        invariant nodes[..nnodes] == prior + all
        invariant Prepended(old(errors), errors)
        invariant Operand(src, zw, zE, all)
        invariant ReadCalls(src, zE, all) == ReadCalls(src, z, block)
        invariant CallsErrors(src, z) + old(errors) == CallsErrors(src, zE) + errors
        decreases |src| - zE
      {
        ghost var errs := errors;
        var zn, more;
        ghost var arg;
        ghost var acc := all;
        zn, more, all, arg := ParseApplication(zw, zE, prior, all);
        PrependedTrans(old(errors), errs, errors);
        CallsTurn(src, zE, acc, zn, more, all, arg);
        if more {
          Regrouped(CallsErrors(src, zn), OperandErrors(src, WhiteEnd(src, zE)), errs);
        }
        zE := zn;
        if !more {
          ReadCallsIsExpr(src, z0, zw, z, block);
          return;
        }
      }
    }

    /**
     * One turn of that loop: blanks, then either no operand, which ends the
     * expression there, or an operand, applied to `block` by appending a call
     * node holding the operand's node count.
     */
    method ParseApplication(zw: nat, z: nat, ghost prior: seq<AstNode>, ghost block: seq<AstNode>)
      returns (zn: nat, more: bool, ghost all: seq<AstNode>, ghost arg: seq<AstNode>)
      requires Valid() && |prior| < nnodes <= z <= |src| && |prior| <= zw
      requires nodes[..nnodes] == prior + block
      requires Operand(src, zw, z, block)
      modifies this, nodes
      decreases |src| + 1 - zw, 1
      ensures Valid() && nodes[..nnodes] == prior + all
      ensures Prepended(old(errors), errors)
      ensures !more ==> all == block && nnodes <= zn
      ensures more ==> z < zn && |prior| < nnodes <= zn && Operand(src, zw, zn, all)
      ensures !more ==> zn == WhiteEnd(src, z) && ReadOperand(src, zn).None?
      ensures more ==> ReadOperand(src, WhiteEnd(src, z)) == Some(Parsed(zn, arg)) && all == block + arg + [CallNode(|arg|)]
      ensures errors == OperandErrors(src, WhiteEnd(src, z)) + old(errors)
    {
      var func := Root();
      ghost var errs := errors;
      zn := EatWhite(src, z);
      var z1;
      z1, arg := ParseNonCallExpr(zn);
      var argSize := Root() - func;
      assert errors == OperandErrors(src, WhiteEnd(src, z)) + old(errors);
      PrependedTrans(old(errors), errs, errors);
      if z1.None? {
        more, all := false, block;
      } else {
        all := PushApplication(zw, z, zn, z1.value, argSize, prior, block, arg);
        zn, more := z1.value, true;
      }
    }

    /**
     * Applies `block`, read from `zw` to `z`, to the operand `arg` read from
     * `zn` to `z1`, by appending the call node holding the operand's size.
     */
    method PushApplication(zw: nat, z: nat, zn: nat, z1: nat, argSize: nat,
                           ghost prior: seq<AstNode>, ghost block: seq<AstNode>, ghost arg: seq<AstNode>)
      returns (ghost all: seq<AstNode>)
      requires Valid() && |prior| <= zw && argSize == |arg|
      requires nodes[..nnodes] == prior + block + arg
      requires Operand(src, zw, z, block) && Operand(src, zn, z1, arg) && z <= zn && AllWhite(src[z..zn])
      modifies this, nodes
      ensures Valid() && nodes[..nnodes] == prior + all && errors == old(errors)
      ensures all == block + arg + [CallNode(|arg|)]
      ensures |prior| < nnodes <= z1 && Operand(src, zw, z1, all)
    {
      ApplicationOperand(src, zw, z, zn, z1, block, arg);
      PushCall(argSize);
      AppendCall(prior, block, arg);
      all := block + arg + [CallNode(|arg|)];
    }

    /**
     * Parses a whole program. Afterwards either nothing was parsed and an
     * error says an expression was expected, or the nodes are one tree naming
     * every variable of the source in order. Bytes left over abort.
     */
    static method Parse(src: seq<char>) returns (r: Result<SyntaxTree, ParseFault>)
      requires SourceText(src)
      ensures r.Success? ==> fresh(r.value) && fresh(r.value.nodes) && r.value.Valid() && r.value.src == src
      ensures r.Success? && r.value.nnodes == 0 ==>
                |r.value.errors| > 0 && r.value.errors[0].ExpectedExpr? && ReadExpr(src, 0).None?
      ensures r.Success? && r.value.nnodes > 0 ==>
                IsTree(r.value.Postfix()) && Tokens(r.value.Postfix()) == Runs(src) &&
                LaidOut(r.value.Postfix()) && ApplicationsOnly(r.value.Postfix())
      ensures r.Success? && r.value.nnodes > 0 ==> ReadExpr(src, 0) == Some(Parsed(|src|, r.value.Postfix()))
      ensures r.Failure? ==> r.error.loc < |src| && !IsLetter(src[r.error.loc]) && !IsWhite(src[r.error.loc])
      ensures r.Failure? ==> ReadExpr(src, 0).Some? && ReadExpr(src, 0).value.end == r.error.loc
      ensures r.Success? ==> r.value.errors == ExprErrors(src, 0)
      ensures r.Success? ==> forall e | e in r.value.errors :: Justified(src, e)
    {
      var ast := new SyntaxTree(src);
      var zE, block := ast.ParseExpr(0);
      ExprErrorsJustified(src, 0);
      if zE.Some? && CharAt(src, zE.value) != '\0' {
        return Failure(UnusedBytes(zE.value));
      }
      if zE.Some? {
        assert src[0..zE.value] == src;
        assert ast.Postfix() == block;
        TreeLaidOut(block);
      }
      return Success(ast);
    }
  }
}
