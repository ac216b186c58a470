# Two clazy diagnostic heuristics, modelled in Dafny

This project models two checks of the clazy static checker. They look at a syntax tree that clang has already built, and each decides whether to warn. Here the tree is replaced by plain datatypes that record what each check reads from it.

- **unexpected-flag-enumerator-value** (module `FlagEnumerator`). The check takes an enum declaration and decides whether it looks like a set of bit flags. It applies these gates in order:
  1. the enum has a name for linkage;
  2. it has at least four enumerators;
  3. every enumerator has an explicit initialiser;
  4. the first four values are not a consecutive run;
  5. at most half of the values are not powers of two.

  If the enum passes all the gates, the check warns about each enumerator whose value is not a power of two, not zero and not negative, unless an excuse applies. The excuses are tried in this order:
  1. the value is a mask with at least three trailing ones;
  2. the value is a shifted mask with at least three ones;
  3. the name contains "mask", ignoring case;
  4. the initialiser holds a binary operator;
  5. the initialiser refers to another enumerator.

  The warning text is `Unexpected non power-of-2 enumerator value: ` followed by the enumerator's value in decimal.
- **unused-result-check** (module `UnusedResult`). The check warns about a call to a const member function with a non-void return type when the call's first parent shows that the result is thrown away.

Supporting modules:
- `Bits` holds the bit predicates on naturals: power of two, mask, shifted mask, population count and trailing ones. Power of two, mask and shifted mask each have a lemma linking them to an independent characterisation. Population count and trailing ones are tied to them only for masks and powers of two.
- `ApInt` holds LLVM's `APSInt` as an enumerator value: a bit width, a bit pattern and a signedness. `getLimitedValue` returns the zero-extended pattern, capped at 2^64 - 1.
- `Text` holds ASCII case-insensitive containment (`clazy::contains_lower`) and decimal rendering with a parser that reads the number back.
- `Wrappers` and `Diagnostics` hold `Option` and the warning record. A warning is an anchor offset plus a message.

The procedures that loop in the source are methods. Each is proved against a specification function:
- `GetEnumerators`, `HasInitExprs` and `HasConsecutiveValues` are each a loop.
- `IsFlagEnum` has two loops: it fills the vector of power-of-two flags, then counts the false entries.
- `VisitDecl` is the warning loop.

The decision logic is written as functions: the excuse cascade and the unused-result callback.

In two places the code behaves in a way a reader might not expect; the model follows the code:
- Among statement parents, the unused-result check stops the warning only for an expression, a return or an if. A call that is the condition of a `while`, `do`, `for` or `switch` statement is flagged. See Findings. A statement parent records whether the call is that statement's condition, so a loop condition is told apart from an unbraced body, a for-init or a for-increment.
- `hasConsecutiveValues` compares limited values, which are zero-extended bit patterns, and counts in `uint64_t`, so the counter wraps around. Take the signed enum `{-1, 0, 1, 2}`: its first value becomes 2^32 - 1, so the enum is not a consecutive run (`NegativeStartIsNotARun`). The uint64_t enum `{2^64 - 1, 0, 1, 2}` is a run (`WrappingRunIsOrdinal`).

## Model

| member | source | states |
|---|---|---|
| FlagEnumerator.FirstExcuse | src/checks/manuallevel/unexpected-flag-enumerator-value.cpp:55-80 | The excuse it returns holds. No excuse tried earlier holds. When it returns none, no excuse holds at all. |
| FlagEnumerator.ExcusedIffSomeExcuseApplies | src/checks/manuallevel/unexpected-flag-enumerator-value.cpp:55-80 | An enumerator is intentionally not a power of two exactly when at least one of the five excuses holds. |
| FlagEnumerator.MaskExcuseImpliesShiftedMaskExcuse | src/checks/manuallevel/unexpected-flag-enumerator-value.cpp:60-64 | Every value the mask test excuses is also excused by the shifted-mask test. |
| FlagEnumerator.GetEnumerators | src/checks/manuallevel/unexpected-flag-enumerator-value.cpp:82-89 | The copied vector equals the enum's enumerators, in declaration order. |
| FlagEnumerator.HasInitExprs | src/checks/manuallevel/unexpected-flag-enumerator-value.cpp:108-118 | The count of enumerators with an initialiser equals the size exactly when every enumerator has one. |
| FlagEnumerator.HasConsecutiveValues | src/checks/manuallevel/unexpected-flag-enumerator-value.cpp:96-106 | True exactly when, for 1 <= i < min(4, n), limited value i equals (limited value 0 + i) mod 2^64. |
| FlagEnumerator.IsFlagEnum | src/checks/manuallevel/unexpected-flag-enumerator-value.cpp:120-145 | True exactly when all of these hold: at least 4 enumerators; every one has an initialiser; the first four are not consecutive; at most n/2 (rounded down) values are not powers of two. |
| FlagEnumerator.DeclWarnings | src/checks/manuallevel/unexpected-flag-enumerator-value.cpp:149-156 | No warnings for: a non-enum declaration; an enum without a name for linkage; fewer than 4 enumerators; a missing initialiser; a consecutive start. |
| FlagEnumerator.VisitDecl | src/checks/manuallevel/unexpected-flag-enumerator-value.cpp:147-168 | The returned warnings are those of the declaration: none unless it is a flag-like enum with a name for linkage, else one per flagged enumerator in order. |
| FlagEnumerator.FlaggedIndices | src/checks/manuallevel/unexpected-flag-enumerator-value.cpp:158-162 | Lists, strictly increasing, exactly the indices below n of enumerators that are neither compliant nor excused. |
| FlagEnumerator.WarningsFollowDeclarationOrder | src/checks/manuallevel/unexpected-flag-enumerator-value.cpp:158-167 | Over the first n enumerators, there is one warning per flagged enumerator, and the k-th warning belongs to the k-th flagged enumerator. |
| FlagEnumerator.AllWarningsFollowDeclarationOrder | src/checks/manuallevel/unexpected-flag-enumerator-value.cpp:158-167 | The same holds for the whole enum. |
| FlagEnumerator.NothingFlaggedIsSilent | src/checks/manuallevel/unexpected-flag-enumerator-value.cpp:160-162 | When no enumerator is flagged, the warning list is empty. |
| FlagEnumerator.CompliantOrExcusedIsSilent | src/checks/manuallevel/unexpected-flag-enumerator-value.cpp:160-162 | An enum whose every value is a power of two, zero or negative, or is excused, gets no warning. |
| FlagEnumerator.DeclWarningsAnchoredAtInitialisers | src/checks/manuallevel/unexpected-flag-enumerator-value.cpp:164-165 | Every warning of an analysed enum is anchored at the initialiser of the enumerator it reports. |
| FlagEnumerator.WarningMessageDecodes | src/checks/manuallevel/unexpected-flag-enumerator-value.cpp:163-165 | The message is the fixed prefix followed by a canonical decimal numeral, and that numeral reads back as the limited value. |
| FlagEnumeratorExamples.OrdinalEnumIsSilent | src/checks/manuallevel/unexpected-flag-enumerator-value.cpp:132-134 | {0, 1, 2, 3} is a consecutive run, so it is not flag-like and gets no warnings. |
| FlagEnumeratorExamples.UnexpectedSixWarns | src/checks/manuallevel/unexpected-flag-enumerator-value.cpp:158-167 | {1, 2, 6, 16} is flag-like and gets exactly one warning, "...value: 6", at C's initialiser. |
| FlagEnumeratorExamples.AnonymousEnumIsSilent | src/checks/manuallevel/unexpected-flag-enumerator-value.cpp:149-151 | An enum without a name for linkage gets no warnings. |
| FlagEnumeratorExamples.SixEnumIsFlagLike | src/checks/manuallevel/unexpected-flag-enumerator-value.cpp:120-145 | {1, 2, 6, 16} passes every gate of isFlagEnum. |
| FlagEnumeratorExamples.SixEnumFlagsOnlySix | src/checks/manuallevel/unexpected-flag-enumerator-value.cpp:158-162 | In {1, 2, 6, 16} only the enumerator of value 6 is flagged. |
| FlagEnumeratorExamples.AllFlagsAreSilent | src/checks/manuallevel/unexpected-flag-enumerator-value.cpp:136-144 | {0, 1, 2, 4, 8} is flag-like and gets no warnings. |
| FlagEnumeratorExamples.MaskValueIsExcused | src/checks/manuallevel/unexpected-flag-enumerator-value.cpp:60-61 | In {1, 2, 7, 8}, the value 7 is excused as a mask, so the enum gets no warnings. |
| FlagEnumeratorExamples.MaskNameIsExcused | src/checks/manuallevel/unexpected-flag-enumerator-value.cpp:66-67 | The value 6 named LowMask is excused by its name. |
| FlagEnumeratorExamples.CombinationIsExcused | src/checks/manuallevel/unexpected-flag-enumerator-value.cpp:73-74 | AB = A \| B, of value 3, is excused by its binary operator. |
| FlagEnumeratorExamples.WrappingRunIsOrdinal | src/checks/manuallevel/unexpected-flag-enumerator-value.cpp:98-105 | The uint64_t enum {2^64 - 1, 0, 1, 2} is a consecutive run because the counter wraps. |
| FlagEnumeratorExamples.NegativeStartIsNotARun | src/checks/manuallevel/unexpected-flag-enumerator-value.cpp:91-104 | In the int enum {-1, 0, 1, 2}, the limited value of -1 is 2^32 - 1, so the enum is not a consecutive run. |
| ApInt.LimitedValueOfNarrow | src/checks/manuallevel/unexpected-flag-enumerator-value.cpp:93 | For a value at most 64 bits wide, getLimitedValue is exactly the zero-extended bit pattern. |
| ApInt.NegativeIffBelowZero | src/checks/manuallevel/unexpected-flag-enumerator-value.cpp:160 | The denoted integer is the two's complement reading of the pattern: the pattern itself when unsigned; when signed, the pattern or the pattern minus 2^w, whichever lies in [-2^(w-1), 2^(w-1)). isNegative holds exactly when that integer is below zero. |
| Bits.PowerOf2Iff | src/checks/manuallevel/unexpected-flag-enumerator-value.cpp:138 | "Exactly one bit set" holds exactly when the value is 2^k for some k. |
| Bits.MaskIff | src/checks/manuallevel/unexpected-flag-enumerator-value.cpp:60 | A mask is exactly a value 2^k - 1 with k >= 1. |
| Bits.ShiftedMaskIff | src/checks/manuallevel/unexpected-flag-enumerator-value.cpp:63 | A shifted mask is exactly a mask multiplied by some 2^s. |
| Bits.MaskIsShiftedMask | src/checks/manuallevel/unexpected-flag-enumerator-value.cpp:60-63 | A mask is a shifted mask, and its population count equals its trailing ones. |
| Text.ContainsLowerIff | src/checks/manuallevel/unexpected-flag-enumerator-value.cpp:66 | The case-insensitive search succeeds exactly when the needle matches, ignoring ASCII case, at some offset. |
| Text.DecimalRoundTrip | src/checks/manuallevel/unexpected-flag-enumerator-value.cpp:165 | The rendering is non-empty, all digits, with no leading zero, and reads back as the number. |
| UnusedResult.Run | src/checks/manuallevel/unused-result-check.cpp:17-47 | Warns exactly for a const, non-void callee whose first parent is a while, do, for or switch statement, or any other statement that is not an expression, a return or an if, or a declaration other than a variable or constructor. The warning is the fixed message at the call's location. |
| UnusedResult.RunIntended | src/checks/manuallevel/unused-result-check.cpp:24-43 | Warns exactly for a const, non-void callee whose first parent does not count as reading the value (an expression parent counts, whatever it does with the value), except an unbraced if branch, which stays silent as in the source. Loop and switch conditions count as reads; an unbraced body, a for-init and a for-increment do not. |
| UnusedResult.LoopConditionIsFlagged | src/checks/manuallevel/unused-result-check.cpp:26-29 | A call that is a while condition consumes its value, yet Run warns and RunIntended does not. |
| UnusedResult.LoopBodyStillFlagged | src/checks/manuallevel/unused-result-check.cpp:26-32 | A call that is an unbraced loop or switch body, a for-init or a for-increment discards its value, and both decisions warn. |
| UnusedResult.RunIntendedDiffersOnlyOnLoopConditions | src/checks/manuallevel/unused-result-check.cpp:26-29 | The two decisions differ exactly for a const, non-void call that is the condition of a while, do, for or switch statement. |
| UnusedResult.FixtureOutcomes | tests/unused-result-check/main.cpp:7-28 | Under both decisions, `foo();` in a method body and `obj.foo();` in a lambda body warn. `if (foo())` does not, since its first parent is the int-to-bool conversion. The member initialisers `g(foo())` and `g(a.foo())` do not warn either. |
| UnusedResult.VisitStmt | src/checks/manuallevel/unused-result-check.cpp:57-61 | The per-statement visitor emits nothing. |

## Left out

- The fix-it engine in src/FixItUtils.h is not part of this model. That file only declares the builders; their behaviour rests on clang's lexer and source manager, and none of that code is available.
- Tree traversal and matcher registration are left out. This covers `registerASTMatchers`, `ASTContext::getParents` and `clazy::getFirstChildOfType`. Their results are input fields instead: the first parent's kind, and the ConstantExpr's flags for a binary operator and a DeclRef.
- Diagnostic emission is left out. `emitWarning` becomes a returned list of warnings, each an anchor offset and a message; severity and rendering are not modelled.
- The checks' constructors and destructors and the callback's allocation are left out. They hold no logic.
- Source locations are plain offsets.
- Of APSInt, only the pattern-level queries the check makes are modelled. Arbitrary-width arithmetic is not.
- Case folding in `contains_lower` covers ASCII only, as LLVM's StringRef does.
- `UnusedResult.Run` assumes the call has a first parent. The source indexes `parents[0]` without checking.
- UnusedResult.Run assumes the callee is a named method, so its const and void flags always exist. The source dereferences `getMethodDecl()` without checking. For a call through a pointer to member function, such as `(obj.*pmf)()`, clang returns null there and the check would crash. The model has no such input.
- UnusedResult.RunIntended treats every expression parent as a read, as the source does. That includes three places where the value is discarded: the left operand of a comma (`a.foo(), b();`), a `(void)` cast (`(void)a.foo();`), and the temporary wrapper clang puts around a call returning a class with a non-trivial destructor (`obj.name();` with `QString name() const`). Both versions stay silent there.
- UnusedResult.RunIntended keeps the source's silence for every if parent. That includes a call that is an unbraced branch, as in `if (x) a.foo();`, whose value is discarded.
- UnusedResult.RunIntended corrects only loop and switch conditions. A call used as a field's default member initialiser (`int x = a.foo();` in a class) has a field declaration as its first parent, which is neither a variable nor a constructor. It still warns in both versions.
- A member initialiser's parent can be the constructor declaration or, in newer clang, the initialiser node itself. The first maps to `DeclParent(CXXConstructorDecl)` and the second to `OtherParent`. Neither warns.

## Findings

| source | as written | input that shows it | evidently intended | confidence | as-written member | corrected member |
|---|---|---|---|---|---|---|
| src/checks/manuallevel/unused-result-check.cpp:26-29 | Only Expr, ReturnStmt and IfStmt parents (CXXThisExpr included) stop the warning for a statement parent. | `while (a.isValid()) {}` with `bool isValid() const`. The call is the WhileStmt's condition, and the check reports "Result of const member function is not used." | The condition of a while, do, for or switch statement uses the value, just as an if condition does, so it is not flagged. | medium, not executed | UnusedResult.LoopConditionIsFlagged | UnusedResult.RunIntended |
