# A verified model of the lambda parser and type-graph builder

The program reads a tiny lambda-calculus source text of one-letter variables,
applications by juxtaposition and parentheses. It parses that text into a flat
array of AST nodes in post-fix order. It then builds a *type graph* with one
slot per node:

- every occurrence of a letter is bound to the letter's first occurrence;
- every application constrains its callee to be a function from the argument's
  type to the application's own type;
- constraints are solved by unification over a union-find forest kept inside
  the slot array itself.

Each slot is one of three things:

- a *link*: a negative `delta`, pointing `delta` slots back;
- a *fresh* variable: `delta == 0`;
- a *function*: `delta > 1`. Its return slot is `delta` ahead and its argument
  slot is `deltaArg` away.

Last, every slot's type is printed as a name derived from the expression, for
example `A`, `Br` or `Arr`, followed by the function expansion `=(arg ret)`.
Recursive occurrences are cut with a bounded stack.

The model has one module per concern:

- `Wrappers` (`wrappers.dfy`): `Option` and `Result`.
- `Ast` (`ast.dfy`): the node layout of `lambda.h`, the decoding of a node
  (`ast_unpack`) and the shape of a post-fix tree (`IsTree`).
- `Parse` (`parse.dfy`): the recursive-descent parser of `parse.c`.
  - The `SyntaxTree` class owns the node buffer, an `array` with `|src| + 8`
    places as the C allocates.
  - It also owns a node count and the list of syntax errors, newest first.
  - Ghost functions `ReadOperand`, `ReadExpr` and `ReadCalls` are the
    reference grammar. They say where each reading ends and which nodes it
    builds; application nests to the left. Each parse method returns exactly
    what the grammar reads.
  - Ghost functions `OperandErrors`, `ExprErrors` and `CallsErrors` say which
    syntax errors each reading records, newest first. Each parse method puts
    exactly those in front of the errors already recorded. Every recorded
    error is justified by the text.
  - Two ghost predicates, `Operand` and `Expr`, describe what a parse function
    has produced from a stretch of text. Every reading of the grammar is one.
  - The main theorem is on `Parse.SyntaxTree.Parse`. The node array is a
    well-formed post-fix tree. It is the grammar's reading of the whole source.
    Its variables are exactly the letter runs of the source, in order. Its
    errors are exactly those the grammar records. The node buffer can never
    overflow.
- `TypeSlots` (`typeslots.dfy`): the slot encoding, `Find` and classes, and
  `relink_to_first`, `unify` and `replace_subgraph_with_links`.
  - Each routine is an array method proved equal to a ghost function on
    sequences.
  - Lemmas about those functions show that unification only merges classes,
    keeps function structure (`Refines`) and merges its two inputs.
- `TypeInfer` (`typeinfer.dfy`): `coerce_callee`, `bind_to_typevar`,
  `infer_new_type` and `build_type_graph`.
  - The `TypeGraph` class holds the slot array and the binding table.
  - The main theorems are `ApplicationTyped` and `SameLetterSameType`. In the
    finished graph, every application's callee is a function from its argument
    to its result. Equal letters share one type.
- `TypeInferExamples` (`typeinfer.dfy`): the graphs the builder makes for
  `a b` and `a a`, step by step.
- `TypePrint` (`typeprint.dfy`): `print_typename` and the `Unparser` of
  `unparse_push`, `unparse_pop`, `unparse_type_` and `unparse_fun_expansion`.
  - Output is a `seq<char>` field.
  - It is specified by the recursive functions `Rendered` and `Expansion`.
  - `Nesting` measures how deep the stack grows, which must fit its 16
    entries.
  - Printed parentheses are proved balanced.
- `TypePrintExamples` (`typeprint.dfy`): the two programs of
  `TypeInferExamples`, printed. `a b` prints `A=(B Ar)`, `B`, `Ar`, and `a a`
  prints `A=(A Ar)`, `A=(A Ar)`, `Ar`.

## Model

| member | source | states |
|---|---|---|
| Ast.Unpack | lambda.h:55-80 | decoding succeeds exactly for a known tag, and for a lambda only with a VAR before it; the decoded tag matches the node; a CALL yields the callee index `idx - arg_size - 1`, a VAR or BOUND its payload, a LAMBDA the token of the VAR before it |
| Ast.ArgIdx | lambda.h:82-86 | the argument of the call at `call_idx >= 1` is the slot just before it |
| Ast.LambdaBody | lambda.h:88-92 | the body of the lambda at `ilambda >= 2` is two slots before it |
| Ast.VarCount | lambda.h:11-49 | the number of VAR nodes never exceeds the number of nodes |
| Ast.VarCountExtremes | lambda.h:11-49 | the count is zero exactly when no node is a VAR, and equals the node count exactly when every node is one |
| Ast.VarCountAppend | lambda.h:11-49 | counting VAR nodes distributes over concatenation |
| Ast.CallDecodesToSubtrees | lambda.h:25-31 | in a post-fix tree ending in a CALL, the callee index decodes below the argument index; callee and argument are themselves post-fix trees, laid out as the layout comment describes |
| Ast.TreeLaidOut | lambda.h:25-34 | every post-fix tree decodes at every CALL and holds only VARs and CALLs; it has `2 * vars - 1` nodes |
| Parse.IdxFromLetter | parse.c:126 | the byte minus `'a'` in unsigned 8-bit arithmetic is below 26 exactly for the lower-case letters, and is then the letter's token |
| Parse.EatWhite | parse.c:111-124 | returns the first position at or after `z0` that is not a space, tab or newline (the end of the text counts as NUL); everything skipped is white; that position is `WhiteEnd` |
| Parse.RunsAppend | parse.c:128-148 | the variable tokens of a text split where no letter touches a letter are the tokens of the two parts |
| Parse.RunOfLetters | parse.c:128-148 | a run of letters lexes as the single token of its first letter |
| Parse.RunsOfWhite | parse.c:111-124 | white space contributes no variable |
| Parse.Tokens | lambda.h:19-23 | the VAR payloads of a node sequence number exactly its VAR nodes |
| Parse.TokensAppend | lambda.h:19-23 | the VAR payloads of a concatenation are the payloads of the parts |
| Parse.VarOperand | parse.c:163-170 | a maximal letter run is an operand whose node block is the one VAR of its first letter |
| Parse.ParenOperand | parse.c:172-179 | `(` followed by an expression is an operand with the same nodes, ending after `)` when it is there and at the expression's end otherwise |
| Parse.ApplicationTree | parse.c:204-209 | callee block, argument block and a CALL with the argument's size form a post-fix tree |
| Parse.ApplicationTokens | parse.c:204-209 | the variables of that application are the callee's, then the argument's |
| Parse.ApplicationText | parse.c:196-206 | the letter runs of callee text, white space and argument text are those of callee then argument |
| Parse.ApplicationOperand | parse.c:196-209 | an operand, white space and another operand form an operand of their application, with at most one node per byte consumed |
| Parse.ExprFromOperand | parse.c:186-203 | an operand, with white space before and after it and stopped at a byte that is neither a letter nor white, is an expression |
| Parse.WhiteEnd | parse.c:111-124 | the reference end of a blank stretch: it lies between its start and the end of the text |
| Parse.LetterRunEnd | parse.c:128-148 | the reference end of a letter run: it lies within the text, and past the start when a letter is there |
| Parse.WhiteEndFacts | parse.c:111-124 | everything `WhiteEnd` skips is blank and the byte it stops at is not |
| Parse.LetterRunFacts | parse.c:128-148 | everything `LetterRunEnd` passes is a letter and the byte it stops at is not |
| Parse.ReadOperand | parse.c:163-184 | the reference reading of an operand (a letter run gives the VAR of its first letter; `(` gives the expression after it, ending after its `)` when one follows and at the expression's end otherwise; any other byte gives none); a reading ends past its start and within the text |
| Parse.ReadExpr | parse.c:186-203 | the reference reading of an expression: blanks, a first operand, then the applications to it; it ends past its start and within the text |
| Parse.ReadCalls | parse.c:192-209 | the reference reading of the application loop: after blanks, each further operand is appended with one CALL whose callee is everything read so far (application nests to the left), until no operand follows; it never ends before it starts |
| Parse.OperandErrors | parse.c:128-179 | the errors reading an operand records, newest first: the multi-byte error for a letter run longer than one byte; for a `(`, those of the expression inside, then `Unmatched '('` unless that expression is followed by `)` |
| Parse.ExprErrors | parse.c:186-203 | the errors reading an expression records: those of its first operand, then `Expected expr` when there is none, or else those of the application loop |
| Parse.CallsErrors | parse.c:196-210 | the errors the application loop records: those of each operand it tries, the last failed one included |
| Parse.ParenTurn | parse.c:172-179 | a `(` is closed exactly when the expression inside is read and followed by `)`; its errors are those inside, with `Unmatched '('` in front when it is not closed; its reading ends after the `)` or at the inner end |
| Parse.SingleLettersClean | parse.c:128-210 | in a text without `(` whose letters all stand alone, the application loop records no error |
| Parse.SingleLettersExprClean | parse.c:128-210 | such a text, read from where a letter follows the blanks, has a reading and records no error |
| Parse.OperandErrorsJustified | parse.c:128-179 | every error an operand's reading records is justified: two letters in a row at its location, or a `(` there that is not closed |
| Parse.ExprErrorsJustified | parse.c:186-203 | every error an expression's reading records is justified; `Expected expr` is recorded only where no operand can be read |
| Parse.CallsErrorsJustified | parse.c:196-210 | every error the application loop records is justified |
| Parse.ErrorExamples | parse.c:128-192 | `a` records no error, `ab` the multi-byte error at 0, `(a` `Unmatched '('` at 0, and a blank `Expected expr` at 1 |
| Parse.ReadOperandIsOperand | parse.c:163-184 | whatever the reference grammar reads as an operand is an `Operand`: one post-fix tree naming the letter runs of the text read |
| Parse.ReadExprIsExpr | parse.c:186-203 | whatever the reference grammar reads as an expression is an `Expr` |
| Parse.ReadCallsIsExpr | parse.c:192-209 | an operand followed by the applications the grammar reads after it is an `Expr` from the start of its leading blanks |
| Parse.LeftNested | parse.c:192-209 | `a b c` reads as `(a b) c`: the nodes are `a`, `b`, CALL(1), `c`, CALL(1), ending at the end of the text |
| Parse.ParenthesesEnd | parse.c:172-179 | `(a)` is one operand ending after its `)`; in `a )` the expression stops before the `)` |
| Parse.PrependedTrans | parse.c:57-86 | error lists only ever grow at the front |
| Parse.SyntaxTree.constructor | parse.c:213-226 | an empty tree with eight more zeroed node places than source bytes, and no errors |
| Parse.SyntaxTree.Postfix | parse.c:30-36 | requires at least one node; returns the `nnodes` nodes, whose last is the root |
| Parse.SyntaxTree.Root | parse.c:38-43 | requires at least one node; the root is the last node |
| Parse.SyntaxTree.Alloc | parse.c:45-55 | requires the block to fit the buffer (the C dies otherwise); returns the old node count and grows it by `n`, touching nothing else |
| Parse.SyntaxTree.AddSyntaxError | parse.c:57-86 | requires the location inside the source buffer (the C dies otherwise); puts the error in front of the earlier ones |
| Parse.SyntaxTree.LexVarname | parse.c:128-148 | no letter: token -1, nothing consumed; one letter: its token and one byte; a longer run: the first letter's token, the whole run consumed (up to `LetterRunEnd`) and a multi-byte error at its start |
| Parse.SyntaxTree.PushVarname | parse.c:150-159 | appends one VAR node with the token; requires `token + 'a' <= 'z'` (the C dies otherwise) |
| Parse.SyntaxTree.PushCall | parse.c:204-209 | appends one CALL node with the argument size |
| Parse.SyntaxTree.ParseParen | parse.c:172-179 | the same end and nodes as the reference `ReadOperand` at the `(`, and no operand exactly when it reads none; `Unmatched '('` is put in front of the errors whenever no expression followed by `)` comes after the `(`; a result is an `Operand` of the text consumed; the errors put in front are exactly `OperandErrors` at the `(` |
| Parse.SyntaxTree.ParseNonCallExpr | parse.c:163-184 | the same end and nodes as the reference `ReadOperand`, and no operand exactly when it reads none; a letter always gives an operand, with the multi-byte error exactly when its run is longer than one byte; no result leaves the nodes untouched and reports `Unmatched '('` exactly when the text opened a parenthesis; a result is an `Operand` of the text consumed, its nodes appended; the errors put in front are exactly `OperandErrors` |
| Parse.SyntaxTree.ParseExpr | parse.c:186-211 | the same end and nodes as the reference `ReadExpr`, and no result exactly when it reads none; no result appends nothing and reports `Expected expr`; a result is an `Expr`: its appended nodes form a post-fix tree whose variables are the letter runs of the text consumed, stopped at a byte that is neither a letter nor white; the errors put in front are exactly `ExprErrors`, with or without a result |
| Parse.SyntaxTree.ParseCalls | parse.c:196-210 | the loop of `parse_expr` ends where the reference `ReadCalls` ends, with exactly the nodes it builds, which form an `Expr` from `z0`, its leading blanks included; the errors put in front are exactly `CallsErrors` |
| Parse.SyntaxTree.ParseApplication | parse.c:197-209 | one turn of that loop: when the reference grammar reads no operand after the blanks, the expression ends at `WhiteEnd` with no node added; otherwise the operand `ReadOperand` reads there is appended with a CALL holding its node count, and the result is again an `Operand` from the callee's start; the errors put in front are exactly `OperandErrors` after the blanks |
| Parse.SyntaxTree.PushApplication | parse.c:204-209 | appends the CALL of a callee and its argument, holding the argument's node count; the application is an `Operand` spanning both, and the node count stays within the text read |
| Parse.SyntaxTree.Parse | parse.c:213-233 | never overflows the buffer; an empty tree carries `Expected expr` and arises exactly when the reference grammar reads no expression; a non-empty tree is exactly the reference reading `ReadExpr` of the whole source, ending at its end, a post-fix tree of VARs and CALLs whose variables are its letter runs in order; trailing bytes fail exactly where that reading ends before the end of the text, at a byte that is neither a letter nor white; on success the error list is exactly `ExprErrors` of the whole source, and every error in it is `Justified` by the text |
| TypeSlots.AsFunType | type.c:98-117 | not a function exactly when `delta <= 0`, polymorphic exactly when `delta == 1`, otherwise a monomorphic function whose return slot lies beyond `idx + 1`; the argument is `idx + delta_arg` |
| TypeSlots.FunSlotDecodes | type.c:89-117 | a slot written by `replace_with_fun` decodes back to its argument and return when the return lies beyond `ifun + 1`; it decodes as polymorphic when the return is `ifun + 1`, and as no function below that |
| TypeSlots.Find | type.c:69-81 | the canonical slot of a class lies at or before every member and is not a link |
| TypeSlots.OnPathFacts | type.c:69-81 | every slot on the link path from `i` lies at or before `i` and has the same canonical slot |
| TypeSlots.Relink | type.c:69-81 | returns the canonical slot; every link on the path is rewritten to point straight at it, and nothing else changes |
| TypeSlots.RelinkCompresses | type.c:69-81 | relinking keeps the forest well formed, every class and the set of canonical slots, and leaves `idx` one hop from its root |
| TypeSlots.RelinkPath | type.c:69-81 | after relinking, exactly the links on the path from `idx` point at the canonical slot; every other slot is unchanged |
| TypeSlots.RelinkCompressed | type.c:69-81 | relinking only shortens links on the path, and `idx`'s own link, when it has one, now points at the canonical slot |
| TypeSlots.CompressedFind | type.c:69-81 | shortening links along paths changes no slot's canonical slot |
| TypeSlots.RelinkIdempotent | type.c:69-81 | relinking twice is relinking once |
| TypeSlots.RelinkToFirst | type.c:69-81 | the array method leaves exactly the relinked slots and returns the canonical slot |
| TypeSlots.CompressedRefines | type.c:69-81 | path compression changes no class and keeps every function's structure |
| TypeSlots.RefinesTrans | type.c:140-148 | "only merges classes and keeps function structure" composes |
| TypeSlots.FindBoth | type.c:142-143 | the two finds at the start of `unify` return both canonical slots, leave them canonical, change no class and only refine the graph; unification is the merge of those roots |
| TypeSlots.Unified | type.c:140-148 | unification never creates a class, and removes one when its inputs were in different classes |
| TypeSlots.RootsMerged | type.c:140-148 | merging two canonical slots removes a class unless they are the same |
| TypeSlots.SubgraphReplaced | type.c:121-138 | replacing a subgraph removes at least one class |
| TypeSlots.LinkStep | type.c:129-133 | linking `dest` to an earlier `repl` removes exactly the class `dest` and keeps a function copied into `repl` |
| TypeSlots.PlainLinkRefines | type.c:129-133 | when one side is not a function, the link alone already merges the two and refines the graph |
| TypeSlots.SubgraphReplacedMerges | type.c:121-138 | after the replacement `dest` and `repl` are one class, and the graph was only refined |
| TypeSlots.UnifiedMerges | type.c:140-148 | after unification both inputs are one class whose root is no later than either old root, and the graph was only refined |
| TypeSlots.RootsMergedMerges | type.c:144-147 | merging two roots puts them in one class rooted no later than either |
| TypeSlots.MergeAfterRelink | type.c:142-147 | relinking, then joining the two roots found, puts both inputs in one class |
| TypeSlots.FunctionsMerged | type.c:129-137 | linking one function to the other, then merging their arguments and their returns, joins the two and keeps every function's structure |
| TypeSlots.LinkedAwayFind | type.c:133 | after linking root `dest` to root `repl`, the members of `dest`'s class move to `repl`'s, and every other class is unchanged |
| TypeSlots.UnifiedSameClass | type.c:140-148 | unifying two slots already in one class only compresses paths |
| TypeSlots.ReplaceWithPriorLink | type.c:83-87 | writes a link from `idx` back to `prior`, clearing the argument field; requires `prior < idx` as the C asserts |
| TypeSlots.ReplaceWithFun | type.c:89-96 | writes the function slot with return `iret - ifun` and argument `iarg - ifun` |
| TypeSlots.Unify | type.c:140-148 | the array method leaves exactly the unified slots |
| TypeSlots.ReplaceSubgraphWithLinks | type.c:121-138 | the array method leaves exactly the replaced slots |
| TypeSlots.FirstOccurrence | type.c:59-67 | when `idx` is at most one hop from its root (the C asserts it), returns that root |
| TypeInfer.CalleeCoerced | type.c:150-164 | coercing a callee never shrinks nor breaks the slot array |
| TypeInfer.CoerceCallee | type.c:150-164 | the array method leaves exactly the coerced slots |
| TypeInfer.CoercedRoot | type.c:157-163 | coercing a canonical slot keeps the slot array well formed and its length |
| TypeInfer.MergedFunction | type.c:162-163 | unifying a function's argument and then its return keeps the slot array well formed and its length |
| TypeInfer.CoerceRoot | type.c:156-163 | the array method leaves exactly the coerced slots: a non-function gets `iret - 1 -> iret` written in, a function has its argument and return unified with them |
| TypeInfer.CoercedRootTypes | type.c:156-163 | coercing a canonical slot makes it a function from the class of `iret - 1` to the class of `iret` and only refines the graph |
| TypeInfer.MergedFunctionTyped | type.c:162-163 | unifying a function's argument with `iret - 1` and its return with `iret` only refines the graph and types the application |
| TypeInfer.MergedTwiceTyped | type.c:162-163 | a function whose argument class was joined with `iarg`'s, and then whose return class was joined with `iret`'s, is a function from `iarg` to `iret` |
| TypeInfer.UnifiedJoins | type.c:140-148 | unification refines the graph and joins the classes of its inputs |
| TypeInfer.CalleeCoercedTypes | type.c:150-164 | afterwards the callee's class is a function from the class of `iret - 1` to the class of `iret`, and the graph was only refined |
| TypeInfer.CallTypedPersists | type.c:140-164 | a typed application stays typed under any later refinement |
| TypeInfer.BindSlot | type.c:166-170 | the corrected table index `9 + tok`: defined exactly when it lies inside the `MAX_TOKS` table |
| TypeInfer.BindSlotAsWritten | type.c:166-170 | the guard as written: accepts every `tok <= MAX_TOKS` and indexes `9 + tok` as an unsigned 32-bit value |
| TypeInfer.BindGuardAdmitsOverflow | type.c:166-170 | some token passes the written guard yet indexes past the table |
| TypeInfer.Bound | type.c:166-176 | the letter's entry is set afterwards; a bound letter links the target to the earlier slot, an unbound one records the target |
| TypeInfer.PriorLinkFind | type.c:83-87 | linking a fresh root to an earlier slot moves exactly its class into that slot's class |
| TypeInfer.PriorLinkRefines | type.c:172 | binding a fresh slot to an earlier occurrence only merges classes |
| TypeInfer.Callee | type.c:196-198 | the callee of an application lies before its argument, and is what `ast_unpack` decodes |
| TypeInfer.Inferred | type.c:187-207 | typing node `k` keeps the builder's invariant with `k + 1` nodes seen |
| TypeInfer.BuiltPrefix | type.c:218-221 | the first loop of `build_type_graph` keeps the builder's invariant |
| TypeInfer.InferredTyped | type.c:187-207 | typing one more node keeps every seen application typed and every seen letter in its first occurrence's class |
| TypeInfer.BuiltPrefixTyped | type.c:218-221 | after the first loop every application is typed and every letter occurrence is in its first occurrence's class |
| TypeInfer.TypedThroughTyped | type.c:218-221 | after typing nodes `0 .. k-1`, the applications and letters among them are typed as above |
| TypeInfer.CallsTypedPersist | type.c:140-164 | every typed application stays typed when the graph is refined further |
| TypeInfer.LettersPersist | type.c:166-176 | every letter stays in its first occurrence's class when classes are merged further |
| TypeInfer.RelinkedUpTo | type.c:223-225 | the second loop keeps the slot array well formed |
| TypeInfer.RelinkedUpToFacts | type.c:223-225 | after relinking `0 .. k-1`, no class changed, functions keep their structure, and every slot below `k` is one hop from its root |
| TypeInfer.RelinkedGrow | type.c:223-225 | relinking slot `k - 1` extends those facts to the first `k` slots |
| TypeInfer.RelinkAll | type.c:223-225 | the array loop leaves exactly the relinked slots |
| TypeInfer.Built | type.c:209-228 | the finished graph has one slot per node and a full binding table |
| TypeInfer.BuiltTyped | type.c:209-228 | in the finished graph every slot is one hop from its root, every application is typed and every letter is bound to its first occurrence |
| TypeInfer.ApplicationTyped | type.c:150-164 | in the finished graph the root of every application's callee is a monomorphic function whose argument and return are the argument's and the application's roots |
| TypeInfer.SameLetterSameType | type.c:166-176 | in the finished graph two occurrences of one letter have the same root |
| TypeInfer.LambdaSlotDecodes | type.c:178-185 | the slot written for a lambda decodes as polymorphic with argument `ifun - 1` and return the body; it is not a well-formed forest slot |
| TypeInfer.CoerceLambda | type.c:178-185 | writes the polymorphic slot `(1, -1)` at the lambda; requires the body two slots before, as the C asserts |
| TypeInfer.TypeGraph.constructor | type.c:209-219 | every slot fresh and every binding empty |
| TypeInfer.TypeGraph.BindToTypevar | type.c:166-176 | fails exactly when the token is outside the table, and then changes nothing; otherwise the new state is `Bound` |
| TypeInfer.TypeGraph.InferNewType | type.c:187-207 | the new state is `Inferred` |
| TypeInfer.TypeGraph.TypeNodes | type.c:218-221 | the loop leaves the state `BuiltPrefix` of all nodes |
| TypeInfer.TypeGraph.TypeNode | type.c:219-220 | one turn of that loop: resetting slot `k` and typing node `k` moves the state from `BuiltPrefix` of `k` nodes to that of `k + 1` |
| TypeInfer.TypeGraph.Build | type.c:209-228 | the graph built is `Built` |
| TypePrint.Head | type.c:27-29 | following callees from `idx` stops at a non-CALL node at or before it |
| TypePrint.Unwraps | type.c:24-29 | the number of callee steps is zero exactly for a non-CALL node |
| TypePrint.LetterName | type.c:31-36 | a letter prints as one capital letter, `A` for token 0 |
| TypePrint.CallName | type.c:27-39 | an application prints as its callee's name followed by `r` |
| TypePrint.ReadTypeName | type.c:36-39 | reading a name back gives its first byte and the count of the bytes after it |
| TypePrint.TypeNameReads | type.c:22-40 | every printed name reads back as its head letter and its number of unwrapped callees |
| TypePrint.SameTypeName | type.c:22-40 | two names are equal exactly when head letters and unwrap counts are equal |
| TypePrint.UnwrapStep | type.c:27-28 | unwrapping an application reaches its callee, a decodable node before it with the same head and one unwrap fewer |
| TypePrint.UnwrapCallees | type.c:24-29 | the first loop stops at the head node, decoded, having counted every unwrapped callee |
| TypePrint.PrintTypename | type.c:22-40 | prints the head letter and then one `r` per unwrapped callee |
| TypePrint.NameHasNoParens | type.c:22-40 | a printed name holds no parenthesis |
| TypePrint.StackRoom | type.c:247-256 | while a new function slot can be pushed, the stack is smaller than the number of function slots |
| TypePrint.StackFits | type.c:247-256 | a stack of distinct function slots is never longer than the set of function slots |
| TypePrint.Rendered | type.c:267-272 | the printed type starts with the name of its class's first occurrence |
| TypePrint.Expansion | type.c:274-303 | the expansion is empty exactly for a non-function or a slot already on the stack |
| TypePrint.Nesting | type.c:267-272 | how many entries rendering a slot pushes at most; with the stack it never exceeds the number of function slots |
| TypePrint.ExpansionNesting | type.c:274-303 | an expansion pushes nothing exactly when `Expansion` is empty (a non-function or a slot already on the stack), otherwise one entry more than its deeper half; with the stack it never exceeds the number of function slots |
| TypePrint.SameClassSameText | type.c:267-272 | two slots of one class print the same text |
| TypePrint.CycleCut | type.c:282-284 | a class already being expanded prints as its bare name |
| TypePrint.RenderedBalanced | type.c:267-303 | every printed type has as many `(` as `)` |
| TypePrint.ExpansionBalanced | type.c:274-303 | every expansion has as many `(` as `)` |
| TypePrint.Unparser.constructor | type.c:305-314 | an empty stack and empty output over a printable graph |
| TypePrint.Unparser.Push | type.c:247-256 | reports a slot already on the stack and changes nothing; otherwise pushes it |
| TypePrint.Unparser.Pop | type.c:258-263 | requires a non-empty stack (the C asserts it); removes the top entry |
| TypePrint.Unparser.UnparseType | type.c:267-272 | requires the nesting (`Nesting`) to fit the free stack entries; appends exactly `Rendered` for the current stack and leaves the stack as it was |
| TypePrint.Unparser.UnparseFunExpansion | type.c:274-303 | requires the nesting (`ExpansionNesting`) to fit the free stack entries; appends exactly `Expansion` for the current stack and leaves the stack as it was |
| TypePrintExamples.ApplyRendered | type.c:267-303 | the graph built for `a b` prints `A=(B Ar)`, `B`, `Ar` |
| TypePrintExamples.SelfApplyRendered | type.c:267-303 | the graph built for `a a` prints `A=(A Ar)` twice, then `Ar` |
| TypePrintExamples.ApplyNames | type.c:22-40 | the nodes of `a b` are named `A`, `B`, `Ar` |
| TypeInferExamples.FreshCalleeCoerced | type.c:157-159 | coercing the fresh callee of `a b` writes the function `1 -> 2` into slot 0 |
| TypeInferExamples.LinkedCalleeCoerced | type.c:157-159 | coercing the callee of `a a`, whose argument is linked to it, writes the function `1 -> 2` into slot 0 |
| TypeInferExamples.ApplyBuilt | type.c:209-228 | the graph of `a b` is a function at 0 from slot 1 to slot 2 |
| TypeInferExamples.SelfApplyBuilt | type.c:209-228 | the graph of `a a` is a function at 0 with slot 1 linked to it |

## Left out

- Everything in `lambda.c`, `main.c` and `untestable.*`, `report_syntax_errors`, `delete_ast`, `act_unparse`, `act_type` and `unparse_type` is not part of this model; their file output is the `out` field of the `Unparser` and the `errors` list of the `SyntaxTree`.
- Syntax errors keep their kind and location only. The message text, the file name `zname` and the 10-byte excerpt are dropped.
- The source text is a NUL-terminated C string. It is modelled as a `seq<char>` of bytes below 256 without NUL (`SourceText`), and a read past the end gives `'\0'`.
- Parse.SyntaxTree.Parse: the `int32_t` cast of `zsrc_len` is not modelled; sources are unbounded.
- Parse.SyntaxTree.ParseExpr: the `arg_size > INT32_MAX` check is left out because it cannot fire. The argument size is bounded by the node count, which is at most the source length.
- Parse.SyntaxTree.PushCall: the allocation and write of the CALL node, inline in `parse_expr`, are factored into one method.
- Some loops and branches are factored into methods of their own. The calling code is unchanged otherwise.
  - The loop of `parse_expr` is `Parse.SyntaxTree.ParseCalls`, and one turn of it is `Parse.SyntaxTree.ParseApplication`.
  - The CALL that ends a turn with an argument is written by `Parse.SyntaxTree.PushApplication`.
  - The `'('` case of `parse_non_call_expr` is `Parse.SyntaxTree.ParseParen`.
  - One turn of the first loop of `build_type_graph` is `TypeInfer.TypeGraph.TypeNode`.
  - The part of `coerce_callee` after its `relink_to_first` is `TypeInfer.CoerceRoot`.
  - The first loop of `print_typename` is `TypePrint.UnwrapCallees`.
- The `BOUND` and `LAMBDA` nodes are never produced by this parser. The type-graph builder is proved only for VAR and CALL arrays (`TypeInfer.Typable`).
  - `infer_new_type` on a BOUND node binds slot `-idx` (an unsigned wrap-around) and is left out.
  - On a LAMBDA node it writes the polymorphic slot (`TypeInfer.CoerceLambda`), which is modelled as an operation but not inside `Built`.
- `TypeSlots.WellFormed` excludes the polymorphic slot `delta == 1`. Re-encoding a function whose return is `ifun + 1` would read back as polymorphic (`TypeSlots.FunSlotDecodes` states this). `coerce_callee` would treat a polymorphic callee as a monomorphic one. Neither case arises from VAR and CALL arrays.
- TypePrint.Unparser.UnparseFunExpansion: the polymorphic `f=[..]` prefix is not printed by the model, since `Printable` graphs hold no polymorphic slot.
- TypePrint.Unparser.UnparseType: requires the deepest chain of nested expansions (`Nesting`) to fit the `MAX_DEPTH` (16) stack entries. When it does not, `unparse_push` writes past its stack unchecked, and the model does not follow it there. Every graph with at most 16 function slots fits, by `Nesting`'s contract.
- TypeInfer.CoerceCallee: requires `ifun + 1 < iret`, one more than the C's `assert(ifun < iret)`. Every application satisfies it, since its callee lies before its argument `iret - 1`.
- The slot array the C allocates is uninitialised before the loop writes `(Type){0}`. The model starts every slot fresh.
- `int32_t` slot fields and `uint32_t` index arithmetic are unbounded integers. No overflow arises for arrays that fit in memory.

## Findings

| source | as written | input that shows it | evidently intended | confidence | as-written member | corrected member |
|---|---|---|---|---|---|---|
| type.c:166-170 | `bind_to_typevar` indexes `bindings[9 + tok]` after checking only `tok > MAX_TOKS` | `tok = 26` passes the check and indexes entry 35 of the 35-entry table | reject every token with `9 + tok` outside `0 .. MAX_TOKS - 1` | not executed | TypeInfer.BindGuardAdmitsOverflow | TypeInfer.BindSlot |
