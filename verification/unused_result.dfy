/** The unused-result check: a call of a const, non-void member function
    whose value is discarded gets a warning. What the check reads from
    clang's tree, the callee's qualifiers and the kind of the call's first
    parent, is given as plain data. */
module UnusedResult {
  import opened Wrappers
  import opened Diagnostics

  /** Statement classes a member call can sit directly under. `Expr` stands
      for every expression class other than CXXThisExpr; both are Expr
      subclasses. `OtherStmt` covers the rest, such as a compound statement
      holding the call as a bare statement. */
  datatype StmtKind =
    | Expr | CXXThisExpr | ReturnStmt | IfStmt
    | WhileStmt | DoStmt | ForStmt | SwitchStmt | OtherStmt

  /** Declaration classes; `VarDecl` stands for VarDecl and its subclasses. */
  datatype DeclKind = VarDecl | CXXConstructorDecl | OtherDecl

  /** The first parent of the call: a statement, a declaration, or a node
      that is neither (a type location, say). For a statement parent,
      `asCondition` tells whether the call is that statement's condition
      (of an if, loop or switch) rather than, say, an unbraced body, a
      for-init or a for-increment. */
  datatype ParentNode =
    | StmtParent(stmt: StmtKind, asCondition: bool)
    | DeclParent(decl: DeclKind)
    | OtherParent

  datatype Callee = Callee(isConst: bool, returnsVoid: bool)

  datatype MemberCall = MemberCall(callee: Callee, exprLoc: nat, numArgs: nat, parent: ParentNode)

  /** A statement the per-statement visitor sees. */
  datatype Stmt = MemberCallStmt(call: MemberCall) | OtherStatement

  const Message: string := "Result of const member function is not used."

  /** dyn_cast<Expr> succeeds on the statement. */
  predicate IsExprClass(s: StmtKind)
  {
    s == Expr || s == CXXThisExpr
  }

  /** The statement parents under which this version of the check warns,
      whatever the call's position in them. */
  const FlaggedStmts: set<StmtKind> := {WhileStmt, DoStmt, ForStmt, SwitchStmt, OtherStmt}

  /** The loop and switch statements. */
  const LoopOrSwitch: set<StmtKind> := {WhileStmt, DoStmt, ForStmt, SwitchStmt}

  /** The matcher callback, as written: it warns for a const, non-void
      callee whose first parent is a statement that is not an expression,
      a return or an if, or a declaration that is neither a variable nor a
      constructor. */
  function Run(call: MemberCall): (r: Option<Warning>)
    ensures r.Some? <==>
      call.callee.isConst && !call.callee.returnsVoid &&
      ((call.parent.StmtParent? && call.parent.stmt in FlaggedStmts) || call.parent == DeclParent(OtherDecl))
    ensures r.Some? ==> r.value == Warning(call.exprLoc, Message)
  {
    if call.callee.isConst && !call.callee.returnsVoid then
      match call.parent
      case StmtParent(s, _) =>
        if !IsExprClass(s) && s != ReturnStmt && s != IfStmt && s != CXXThisExpr
        then Some(Warning(call.exprLoc, Message)) else None
      case DeclParent(d) =>
        if d != VarDecl && d != CXXConstructorDecl
        then assert d == OtherDecl; Some(Warning(call.exprLoc, Message)) else None
      case OtherParent => None
    else None
  }

  /** The parent counts as reading the call's value: any expression parent
      (whatever it does with the value), a return, the condition of a
      branch, loop or switch, or the initialiser of a variable or of a
      member in a constructor. An expression parent counts even where it
      discards the value: the left operand of a comma, a `(void)` cast, or
      the temporary wrapper around a call returning a class with a
      non-trivial destructor. Any other declaration parent counts as not
      reading it, as in the source; this includes a field whose default
      member initialiser is the call. */
  predicate ConsumesValue(p: ParentNode)
  {
    match p
    case StmtParent(s, asCondition) =>
      s == Expr || s == CXXThisExpr || s == ReturnStmt ||
      ((s == IfStmt || s in LoopOrSwitch) && asCondition)
    case DeclParent(d) => d != OtherDecl
    case OtherParent => true
  }

  /** The call is an unbraced branch of an if: its value is discarded, but
      the source stays silent for every if parent, and so does the corrected
      version below. */
  predicate IsIfBranch(p: ParentNode)
  {
    p.StmtParent? && p.stmt == IfStmt && !p.asCondition
  }

  /** The callback with the condition of a loop or switch suppressed like
      the condition of an if. Every other parent is treated as in `Run`. */
  function RunIntended(call: MemberCall): (r: Option<Warning>)
    ensures r.Some? <==>
      call.callee.isConst && !call.callee.returnsVoid &&
      !ConsumesValue(call.parent) && !IsIfBranch(call.parent)
    ensures r.Some? ==> r.value == Warning(call.exprLoc, Message)
  {
    if call.callee.isConst && !call.callee.returnsVoid then
      match call.parent
      case StmtParent(s, asCondition) =>
        if !IsExprClass(s) && s != ReturnStmt && s != IfStmt &&
           !(asCondition && (s == WhileStmt || s == DoStmt || s == ForStmt || s == SwitchStmt))
        then Some(Warning(call.exprLoc, Message)) else None
      case DeclParent(d) =>
        if d != VarDecl && d != CXXConstructorDecl
        then Some(Warning(call.exprLoc, Message)) else None
      case OtherParent => None
    else None
  }

  /** `while (a.isValid()) { }` with `bool isValid() const`: the call's
      value is the loop condition, yet the check as written warns. */
  lemma LoopConditionIsFlagged()
    ensures var call := MemberCall(Callee(true, false), 7, 0, StmtParent(WhileStmt, true));
      ConsumesValue(call.parent) && Run(call).Some? && RunIntended(call).None?
  {
  }

  /** A call that is an unbraced loop body, a for-init or a for-increment
      discards its value, and both versions warn:
      `while (x) a.foo();`, `do a.foo(); while (x);`, `for (a.foo(); c;)`. */
  lemma LoopBodyStillFlagged(s: StmtKind)
    requires s in LoopOrSwitch
    ensures var call := MemberCall(Callee(true, false), 3, 0, StmtParent(s, false));
      !ConsumesValue(call.parent) && Run(call).Some? && RunIntended(call) == Run(call)
  {
  }

  /** The two versions differ only for a call that is the condition of a
      while, do, for or switch statement. */
  lemma RunIntendedDiffersOnlyOnLoopConditions(call: MemberCall)
    ensures Run(call) != RunIntended(call) <==>
      call.callee.isConst && !call.callee.returnsVoid &&
      call.parent.StmtParent? && call.parent.stmt in LoopOrSwitch && call.parent.asCondition
  {
  }

  /** The outcomes the test fixture of the check expects, under both
      versions, for `int foo() const`:
      - `foo();` as a statement of a method body warns;
      - `obj.foo();` as the statement of a lambda body warns;
      - `if (foo())` does not: the call's first parent is the implicit
        conversion of the int to bool, an expression;
      - `A() : g(foo())` and `B() : g(a.foo())` do not: the first parent of a
        member initialiser's call is the constructor. */
  lemma FixtureOutcomes()
    ensures var foo := Callee(true, false);
      var bare := MemberCall(foo, 10, 0, StmtParent(OtherStmt, false));
      var inLambda := MemberCall(foo, 28, 0, StmtParent(OtherStmt, false));
      var condition := MemberCall(foo, 11, 0, StmtParent(Expr, false));
      var memberInit := MemberCall(foo, 7, 0, DeclParent(CXXConstructorDecl));
      var otherMemberInit := MemberCall(foo, 20, 0, DeclParent(CXXConstructorDecl));
      Run(bare) == RunIntended(bare) == Some(Warning(10, Message)) &&
      Run(inLambda) == RunIntended(inLambda) == Some(Warning(28, Message)) &&
      Run(condition) == RunIntended(condition) == None &&
      Run(memberInit) == RunIntended(memberInit) == None &&
      Run(otherMemberInit) == RunIntended(otherMemberInit) == None
  {
  }

  /** The per-statement visitor tests for a one-argument member call and
      then does nothing either way. */
  method VisitStmt(s: Stmt) returns (warnings: seq<Warning>)
    ensures warnings == []
  {
    warnings := [];
    if !s.MemberCallStmt? || s.call.numArgs != 1 {
      return;
    }
  }
}
