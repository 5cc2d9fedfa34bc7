# Bendy Bus: a verified model of libdfsm

Bendy Bus simulates D-Bus services from a description in a small language: an object has numbered states,
variables, and transitions between states that are triggered by method calls, by property sets, or at
random; a transition has preconditions, and statements that assign variables, reply, throw errors and emit
signals; any literal can be marked to be fuzzed. This project models the interpreter and the static
analyser of that language in Dafny and proves properties of the model. `dafny verify dfyconfig.toml`
checks all of it.

## How the model is laid out

- `Results`, `Numbers`, `Sequences`, `VariantTypes`: faults, common definitions, GVariant types and values.
- `SaturatingArithmetic`, `Comparisons`, `Containers`, `Builtins`: the operators and builtin functions, the
  loops among them as loops over wrapping counters and builders.
- `Language`, `Evaluator`: syntax, the type checker as it is written, and evaluation with fuzzing. Every
  random choice is a draw from a tape, so a statement about all tapes is about all outcomes.
- `ExpressionLaws`, `BuiltinLaws`, `Quoting`: what operators and builtin functions compute, as laws between
  expressions that have one value, for all operands that have values (of builtin functions, in calls that the checker
  accepts), and that every value is what its literal evaluates to.
- `TypeSoundness`, `EffectFree`, `UniqueKeys`, `Exactness`, `Typing`, `TypedPrograms`: what an accepted expression
  can do, with an exact account of what the checker lets through by mistake, and what the checker must accept.
- `Fuzzing`, `FuzzedTransitions`: exactly which values a fuzzed expression can have and what a fuzzed transition can
  do, by a semantics without draws and weights.
- `Statements`, `Assignment`, `Outputs`: the effect of statements, the laws of structured assignment, and which
  output each statement gives.
- `Environments`, `InitialStore`: the store of variables as tables of cells updated in place, its saved copy,
  and how the initial variables get there.
- `Transitions`, `Checking`: what is checked of a transition, its preconditions, and its statements.
- `Scanning`, `Attempts`, `DoubleFallback`: how a transition is chosen by a scan from a random offset with
  two remembered fallbacks, and what an attempt to execute one does.
- `Locality`, `Possibilities`: evaluation depends only on the draws it takes, so draws can be put together, and
  what some draws can make of an attempt can be told from what they can make of each transition.
- `Machines`, `Runs`, `Steps`, `UniqueRuns`, `Answers`, `Progress`, `Mismatch`: steps and runs as functions of
  configurations and events, and what holds in all of them, under the rule by which the code remembers
  failures and under the rule that its assertions expect.
- `Simulator`, `MachineObjects`, `OutputSequences`, `Driver`: the objects that really run, updated in place,
  each method proved equal to its function; what is proved of runs thereby holds of the objects.
- `Reachability`, `Lint`, `LintTool`, `FaultyMove`: the greedy reachability search over a matrix and a queue,
  exact against paths, and what its answers say about runs of a machine object.
- `ObjectStates`, `Registration`: numbering states and registering transitions; the asynchronous registration
  of bus names over a record with hand-counted references.
- `Utf8`, `Blocks`, `BlockSurgery`: UTF-8 after RFC 3629, the choice of random blocks of text, and the block
  surgery of the string fuzzer.

An operation that the C code does by updating an object is a method of a class or a method with loops here,
and is proved against a function; the laws are lemmas about the functions. A fault is a value of `Fault`: a
GLib accessor or builder meeting a value of the wrong type, a failing assertion, or signed overflow that C
leaves undefined. Where the C code would go on after a GLib warning, the model stops at the fault.

A program is *accepted* when it passes the checks as they are written, and *guarded* when it also passes the
tests that the checks lack. Types cannot rule out two faults: `dictSet()` on a repeated key, and `*` and `%` on
the smallest 32- and 64-bit numbers. An expression is *tame* for a set of these faults when it has a source of
no other, which its types tell; tame for the empty set, it has none. It is *repeat-free* for a set of literals
that may be fuzzed when it has no source of dictionaries with repeated keys, in which case `dictSet()` is no
danger either. A refusal is *withdrawn* when the code remembers that a transition was refused with an error,
evaluates its preconditions again to report the error, and they do not fail with one.

## Where the code and its documentation differ

The model follows the code.

- `dfsm/dfsm-ast-expression-binary.c:189-190`: a missing `break` lets the test for equal types overwrite the
  test for numeric operands, so `"a" + "b"` is accepted and then fails.
- `dfsm/dfsm-ast-expression-binary.c:279`: the comment has -1/0 == -MAX; the code gives MIN. The invariant of
  line 282 fails for a zero divisor and for MIN / -1.
- `dfsm/dfsm-ast-expression-binary.c:330, 342`: the absolute value of the smallest 32- or 64-bit number is
  undefined in C. At 16 bits promotion to `int` saves it.
- `dfsm/dfsm-ast-data-structure.c:673`: an annotation only has to be a subtype of the inferred type, so a mixed array with
  any array annotation is accepted.
- `dfsm/dfsm-ast-data-structure.c:423`: any type string is accepted as a signature literal, also indefinite
  ones; dictionary literals may have keys of types that are not basic.
- `dfsm/dfsm-environment.c:1242`: `structHead()` of an empty struct has no type, and the checker aborts.
- `dfsm/dfsm-ast-data-structure.c:1103`: the draw meant to be a large negative 64-bit number is never negative.
- `dfsm/dfsm-ast-data-structure.c:1187-1188`: a block is said to be able to start where the text starts; it
  always starts after a separator.
- `dfsm/dfsm-ast-data-structure.c:1251-1273`: the last few draws belong to no separator and fail an assertion.
- `dfsm/dfsm-machine.c:332, 351-352`: both fallbacks can be set, which violates the assertion at line 386.
- `dfsm/dfsm-machine.c:374`: a failed precondition is evaluated a second time, which can lose the answer to a
  call if it is fuzzed.
- `dfsm/dfsm-machine.c:786-794`: transitions that throw count as leading to their target state.
- `dfsm/dfsm-ast-transition.c:346-378`: the type of a reply is calculated before the reply is checked, so an
  ill-typed reply aborts instead of being reported.
- `dfsm/dfsm-ast-object.c:402-406`: duplicate variables are looked for before any is stored, so they are found
  only by an assertion.
- `dfsm/dfsm-ast-object.c:441-444`: the name of the starting state is never checked; `dfsm/dfsm-utils.c:73` accepts
  names that start with a digit, which D-Bus member names may not.
- `dfsm/dfsm-object.c:1300-1322`: resetting an object restarts its timer and counters but not its machine;
  `dfsm_machine_reset_state()` is what the model's resets are.

## Model

| member | source | states |
|---|---|---|
| VariantTypes.SubtypeOfDefinite | dfsm/dfsm-ast-data-structure.c:660-719 | Against a definite type the subtype test is equality, so a definite annotation leaves no choice. |
| VariantTypes.SubtypeTransitive | dfsm/dfsm-environment.c:1395-1418 | Subtyping is transitive, so checking parameters against ever more general patterns loses nothing. |
| VariantTypes.WellFormedType | dfsm/dfsm-environment.c:301-322 | Every value that can exist has a definite type with basic dictionary keys, as declaring a variable demands. |
| SaturatingArithmetic.PlusSaturates | dfsm/dfsm-ast-expression-binary.c:344-348 | For all seven integer widths `+` is the exact sum clamped to the type, and no guard or intermediate result overflows. |
| SaturatingArithmetic.MinusSaturates | dfsm/dfsm-ast-expression-binary.c:350-354 | For all seven integer widths `-` is the exact difference clamped to the type, and no guard or intermediate result overflows. |
| SaturatingArithmetic.TimesSaturates | dfsm/dfsm-ast-expression-binary.c:328-332 | `*` is the exact product clamped to the type, except exactly where its guard takes the absolute value of the smallest 32- or 64-bit number, which C leaves undefined. |
| SaturatingArithmetic.DivideTruncates | dfsm/dfsm-ast-expression-binary.c:333-339 | `/` truncates toward zero; a zero divisor gives the extreme of the dividend's sign, and zero for zero. |
| SaturatingArithmetic.ModulusFollowsDividend | dfsm/dfsm-ast-expression-binary.c:340-343 | `%` has the sign of the dividend and the remainder of the magnitudes, and a zero divisor gives zero; it is undefined just where the absolute value is. |
| SaturatingArithmetic.CalcInRange | dfsm/dfsm-ast-expression-binary.c:285-354 | An operator that has a value has one in the range of its operands' type. |
| SaturatingArithmetic.QuotientAndRemainderRecompose | dfsm/dfsm-ast-expression-binary.c:276-283 | The documented law x == (x / y) * y + x % y under the saturating operators, with the exact set of operands for which it holds. |
| SaturatingArithmetic.NegativeOverZeroIsMin | dfsm/dfsm-ast-expression-binary.c:333-339 | A negative number over zero gives MIN, not the -MAX of the comment; the two differ for every signed type. |
| SaturatingArithmetic.TruncReal | dfsm/dfsm-ast-expression-binary.c:340-343 | `%` on doubles works on the whole numbers next to them towards zero. |
| Containers.ArrayInsert | dfsm/dfsm-environment.c:773-816 | The one-pass loop, whose 32-bit counter wraps past zero, inserts before position min(i, n) and nowhere else. |
| Containers.ArrayRemove | dfsm/dfsm-environment.c:834-866 | The loop with the wrapping counter drops position min(i, n - 1), and leaves an empty array alone. |
| Containers.RemoveUndoesInsert | dfsm/dfsm-environment.c:773-866 | Removing at an index undoes inserting at it, also where both clamp the index. |
| Containers.DictSetLoop | dfsm/dfsm-environment.c:924-984 | The dictSet() loop computes the specified update, with its fault on a repeated key. |
| Containers.DictUnsetLoop | dfsm/dfsm-environment.c:1024-1058 | The dictUnset() loop computes the specified removal. |
| Containers.DictGetLoop | dfsm/dfsm-environment.c:1116-1154 | The dictGet() loop computes the specified lookup. |
| Containers.DictSetFails | dfsm/dfsm-environment.c:951-964 | The assertion in dictSet() fails if and only if the dictionary holds the key twice, so never on unique keys. |
| Containers.DictSetIsUpdate | dfsm/dfsm-environment.c:924-984 | dictSet() is update of the finite map a dictionary stands for. |
| Containers.DictSetKeepsOrder | dfsm/dfsm-environment.c:924-984 | dictSet() leaves every other entry in its place and appends a new key at the end. |
| Containers.DictSetKeepsUnique | dfsm/dfsm-environment.c:924-984 | dictSet() keeps keys unique. |
| Containers.DictUnset | dfsm/dfsm-environment.c:1024-1058 | dictUnset() keeps exactly the entries with other keys. |
| Containers.DictUnsetIsRemoval | dfsm/dfsm-environment.c:1024-1058 | dictUnset() is removal from the finite map, whether or not keys repeat. |
| Containers.DictUnsetKeepsUnique | dfsm/dfsm-environment.c:1024-1058 | dictUnset() keeps keys unique. |
| Containers.DictGetIsLookup | dfsm/dfsm-environment.c:1116-1154 | dictGet() is lookup in the finite map with a default, whether or not keys repeat. |
| Containers.ReadOverWrite | dfsm/dfsm-environment.c:924-1154 | dictGet() after dictSet() gives the value written at that key, and what was there before at every other. |
| Containers.UnsetForgetsSet | dfsm/dfsm-environment.c:924-1058 | dictUnset() after dictSet() of the same key equals dictUnset() alone, order included. |
| Builtins.CollectKeys | dfsm/dfsm-environment.c:516-539 | The keys() loop gives the key of every entry, in order. |
| Builtins.Search | dfsm/dfsm-environment.c:643-667 | The inArray() loop, which stops at the first match, decides membership. |
| Builtins.CollectTuples | dfsm/dfsm-environment.c:1186-1224 | The dictToTupleArray() loop gives a pair for every entry, in order. |
| Builtins.JoinStrings | dfsm/dfsm-environment.c:1276-1314 | The stringJoin() loop puts the separator before every string but the first. |
| Builtins.JoinSplits | dfsm/dfsm-environment.c:1276-1314 | Joining two non-empty lists separately, with the separator between, equals joining them at once. |
| Builtins.InsertedIsRead | dfsm/dfsm-environment.c:708-816 | arrayGet() after arrayInsert() reads the inserted element at its clamped position, earlier elements where they were, later ones one further on, and the default outside. |
| Builtins.KeysFollowUpdates | dfsm/dfsm-environment.c:516-1058 | keys() after dictSet() has exactly the old keys and the new one; after dictUnset() exactly the others. |
| Builtins.TupleHeadsAreKeys | dfsm/dfsm-environment.c:1186-1258 | structHead() of the tuples of dictToTupleArray() are the keys() of the dictionary, in order. |
| Builtins.PairedKeys | dfsm/dfsm-environment.c:565-603 | pairKeys() gives a dictionary with exactly the given keys in order, whatever is fuzzed while each value is evaluated afresh. |
| Builtins.PairedValues | dfsm/dfsm-environment.c:565-603 | Without fuzzing pairKeys() pairs every key with the one value of its parameter. |
| Builtins.PlainStruct | dfsm/dfsm-ast-data-structure.c:2176-2202 | Without fuzzing a struct literal holds the value of each of its items, in order. |
| Builtins.PlainArray | dfsm/dfsm-ast-data-structure.c:2107-2175 | Without fuzzing an array literal holds the value of each of its items, once each and in order. |
| Builtins.PlainDict | dfsm/dfsm-ast-data-structure.c:2239-2325 | Without fuzzing a dictionary literal holds the key and value of each of its entries, once each and in order. |
| Comparisons.SpellUnique | dfsm/dfsm-ast-data-structure.c:423-430 | A type string can be read in only one way whatever follows it, so comparing signatures as strings distinguishes all types. |
| Comparisons.LessTrichotomy | dfsm/dfsm-ast-expression-binary.c:360-371 | Of two values of one basic type exactly one is less, unless they are equal. |
| Comparisons.LessTransitive | dfsm/dfsm-ast-expression-binary.c:360-371 | The order that the comparison operators use is transitive. |
| Comparisons.StringOrder | dfsm/dfsm-ast-expression-binary.c:360-371 | Strings are in the order of dictionaries: where they first differ one of them ends or has the smaller character. |
| Comparisons.ComparisonsAgree | dfsm/dfsm-ast-expression-binary.c:360-377 | The six comparisons are those of one total order: each has its negation and its mirror image, and the weak ones are the strict ones or equality. |
| Comparisons.DeMorgan | dfsm/dfsm-ast-expression-binary.c:379-384 | Conjunction and disjunction are duals under negation, and conjunction with truth changes nothing. |
| ExpressionLaws.ExcludedMiddle | dfsm/dfsm-ast-expression-unary.c:184 | Of every condition that has a value: e and !e is false, e or !e is true, and !!e is e. |
| ExpressionLaws.DeMorganOf | dfsm/dfsm-ast-expression-binary.c:379-384 | !(a and b) has the value of !a or !b, and !(a or b) that of !a and !b, for all conditions that have values. |
| ExpressionLaws.Units | dfsm/dfsm-ast-expression-binary.c:379-384 | The literals true and false are the units of conjunction and disjunction. |
| ExpressionLaws.Equality | dfsm/dfsm-ast-expression-binary.c:372-377 | l == r is true just when both have one value, and l != r is its negation. |
| ExpressionLaws.Orderings | dfsm/dfsm-ast-expression-binary.c:360-371 | The other comparisons said by `<`, `==` and negation; l < r and r < l never both hold. |
| ExpressionLaws.TextOrder | dfsm/dfsm-ast-expression-binary.c:360-371 | Of two strings, paths or signatures that is less which comes first in a dictionary. |
| ExpressionLaws.TruthOrder | dfsm/dfsm-ast-expression-binary.c:360-371 | On conditions l < r has the value of !l and r. |
| ExpressionLaws.SuccessorIsGreater | dfsm/dfsm-ast-expression-binary.c:344-371 | e < e + 1 for every integer of every type, except the largest, of which e == e + 1 holds. |
| ExpressionLaws.MinusUndoesPlus | dfsm/dfsm-ast-expression-binary.c:344-354 | l + r - r is l if and only if the sum is in the range of the type. |
| ExpressionLaws.DivisionLaw | dfsm/dfsm-ast-expression-binary.c:276-283 | The documented law x == (x / y) * y + x % y, as an expression, evaluates to true if and only if x is zero, or y is not zero and the quotient is in range, and no absolute value overflows in `%`. |
| ExpressionLaws.RealLaws | dfsm/dfsm-ast-expression-binary.c:285-371 | On doubles - undoes +, / undoes * by anything but zero and gives zero by zero, and l < l + r just when r is positive. |
| ExpressionLaws.RealModulus | dfsm/dfsm-ast-expression-binary.c:340-343 | `%` on doubles is `%` on the 64-bit numbers they truncate to. |
| BuiltinLaws.GetAfterSet | dfsm/dfsm-environment.c:924-1154 | dictGet(dictSet(d, k, v), l, x) has the value of v if k and l have one value, and that of dictGet(d, l, x) otherwise. |
| BuiltinLaws.GetAfterUnset | dfsm/dfsm-environment.c:1024-1154 | dictGet(dictUnset(d, k), l, x) has the value of x if k and l have one value, and that of dictGet(d, l, x) otherwise. |
| BuiltinLaws.UnsetAfterSet | dfsm/dfsm-environment.c:924-1058 | dictUnset(dictSet(d, k, v), k) has the value of dictUnset(d, k). |
| BuiltinLaws.KeysAfterSet | dfsm/dfsm-environment.c:516-984 | inArray(l, keys(dictSet(d, k, v))) has the value of l == k or inArray(l, keys(d)). |
| BuiltinLaws.KeysAfterUnset | dfsm/dfsm-environment.c:516-1058 | inArray(l, keys(dictUnset(d, k))) has the value of l != k and inArray(l, keys(d)). |
| BuiltinLaws.GetAbsent | dfsm/dfsm-environment.c:1136-1154 | Where inArray(l, keys(d)) is false dictGet(d, l, x) has the value of x. |
| BuiltinLaws.RemoveAfterInsert | dfsm/dfsm-environment.c:773-866 | arrayRemove(arrayInsert(a, i, v), i) has the value of a, whatever the index. |
| BuiltinLaws.InArrayAfterInsert | dfsm/dfsm-environment.c:643-816 | inArray(x, arrayInsert(a, i, v)) has the value of x == v or inArray(x, a). |
| BuiltinLaws.GetAfterInsert | dfsm/dfsm-environment.c:708-816 | What arrayGet() reads after arrayInsert() at every index: the new item, an old one where it was or one further on, or the default. |
| BuiltinLaws.HeadOfStruct | dfsm/dfsm-environment.c:1246-1258 | structHead() of a struct literal has the value of its first item. |
| BuiltinLaws.JoinOfNone | dfsm/dfsm-environment.c:1276-1314 | stringJoin() of an empty array is the empty string. |
| BuiltinLaws.JoinAfterInsert | dfsm/dfsm-environment.c:1276-1314 | Joining an array with one more string in front gives that string, the separator, and the rest joined; or that string alone. |
| BuiltinLaws.KeysOfPairs | dfsm/dfsm-environment.c:516-603 | keys(pairKeys(ks, v)) has the value of ks. |
| BuiltinLaws.GetOfPairs | dfsm/dfsm-environment.c:565-1154 | dictGet(pairKeys(ks, v), l, x) has the value of v if l is among ks, and that of x otherwise. |
| BuiltinLaws.TuplesOfDict | dfsm/dfsm-environment.c:1186-1224 | A pair of k and dictGet(d, k, x) is among dictToTupleArray(d) just when k is among keys(d). |
| Quoting.QuoteDenotes | dfsm/dfsm-ast-data-structure.c:1921-2335 | Round trip: every value of a type that can be written is what its literal is checked to be and evaluates to, at every depth. |
| Language.DictTypesAreSubtypes | dfsm/dfsm-environment.c:501-513 | The dictionary types that the builtins look for are exactly the subtypes of a{?*}. |
| Language.LeastGeneralDefinite | dfsm/dfsm-ast-data-structure.c:511-657 | The inferred element type of a container literal is definite if and only if all its elements have one type, and is then that type. |
| Language.CheckDependsOnTypes | dfsm/dfsm-ast-data-structure.c:660-719 | What the checker says depends only on the names and types of variables, so it holds for the whole of a simulation. |
| Language.GuardedDependsOnTypes | dfsm/dfsm-ast-expression-binary.c:143-220 | So does the guard that the checker lacks. |
| Language.TameDependsOnTypes | dfsm/dfsm-ast-expression-binary.c:285-354 | And so does what tells which faults an expression has a source of. |
| TypeSoundness.FuzzIntInRange | dfsm/dfsm-ast-data-structure.c:1067-1150 | Whatever is drawn, a fuzzed integer is in the range of its type. |
| TypeSoundness.FuzzInt64RarelyNegative | dfsm/dfsm-ast-data-structure.c:1096-1106 | The draw for large negative 64-bit numbers never gives one, since it subtracts in unsigned arithmetic. |
| TypeSoundness.FuzzPathValid | dfsm/dfsm-ast-data-structure.c:1732-1752 | A fuzzed object path is an object path. |
| TypeSoundness.FunctionTypeUsable | dfsm/dfsm-environment.c:501-1273 | The return type of an accepted builtin call is definite. |
| TypeSoundness.ApplyBinarySound | dfsm/dfsm-ast-expression-binary.c:255-397 | A guarded operator on values of its operand types gives a value of its result type; the one fault left is the undefined absolute value, for `*` and `%` on 32- and 64-bit signed operands. |
| TypeSoundness.ApplyBinaryUnguarded | dfsm/dfsm-ast-expression-binary.c:170-205 | An accepted operator that fails the guard goes wrong on all values of its operand types. |
| Typing.OperandsIff | dfsm/dfsm-ast-expression-binary.c:170-205 | For operand types that have values: an operator is accepted and guarded if and only if no values of the types make it meet a type fault; == and != if and only if the types are equal. |
| Typing.ConformingInhabits | dfsm/dfsm-environment.c:301-322 | Every type of a variable in a conforming store has values, so what is said of such types holds at every point of every run. |
| Typing.FunctionTypeIff | dfsm/dfsm-environment.c:501-1273 | A builtin is accepted with a return type if and only if parameters and return type are an instance of its declared type scheme. |
| Typing.TypedIff | dfsm/dfsm-ast-data-structure.c:511-719 | Accepted and guarded with a type are exactly the expressions that have that type by rules which say nothing of subtypes or inference: operators are applied to operands they cannot go wrong on, builtins to instances of their schemes, containers to items of one type. |
| Typing.StatementTypedIff | dfsm/dfsm-ast-statement-assignment.c:118-165 | A statement is accepted and guarded if and only if it is typed: a struct of variables and a value of one type, parameters of a declared signal, a reply of the declared type. |
| Typing.TransitionTypedIff | dfsm/dfsm-ast-transition.c:303-450 | A transition is accepted and guarded if and only if it has the right number of replies, conditions of type boolean, and typed statements. |
| TypedPrograms.ProgramTypedIff | dfsm/dfsm-ast-object.c:563-680 | A whole machine is accepted and guarded if and only if, besides what is demanded of its states, variables and interfaces, every transition has a declared trigger and is typed in its context. |
| TypeSoundness.ApplyFunctionSound | dfsm/dfsm-environment.c:516-1314 | A builtin on parameters of an accepted type gives a value of the calculated return type, and only dictSet() can fail; which value is in BuiltinLaws. |
| TypeSoundness.CheckUsable | dfsm/dfsm-ast-data-structure.c:660-719 | An accepted and guarded expression has a definite type with basic dictionary keys. |
| TypeSoundness.FuzzCloneSound | dfsm/dfsm-ast-data-structure.c:1892-1906 | Evaluating a clone with its weight raised keeps to the type of the original. |
| TypeSoundness.EvalSound | dfsm/dfsm-ast-data-structure.c:1921-2335 | Progress and preservation: a guarded expression, under every outcome of fuzzing, evaluates to a value of exactly its calculated type, or meets a repeated key or an undefined absolute value, and only if it has a source of that fault. Which value is in ExpressionLaws, BuiltinLaws and Quoting, and under fuzzing in Fuzzing. |
| EffectFree.EvalOnlyDraws | dfsm/dfsm-ast-data-structure.c:1892-2335 | Evaluation leaves every weight as it was, although fuzzing a child raises its weight meanwhile. |
| EffectFree.CalmEval | dfsm/dfsm-ast-data-structure.c:1060-1064 | An expression with nothing to fuzz draws nothing and has its plain value. |
| EffectFree.FuzzingOffIsDeterministic | dfsm/dfsm-ast-data-structure.c:1060-1064 | With fuzzing off the value is a function of the environment, whatever the weights and draws. |
| EffectFree.FuzzedArrayBound | dfsm/dfsm-ast-data-structure.c:2107-2175 | A fuzzed array literal of n elements has at most 3n. |
| EffectFree.FuzzedDictBound | dfsm/dfsm-ast-data-structure.c:2239-2325 | A fuzzed dictionary literal of n entries has at most 2n. |
| Fuzzing.CanHaveIff | dfsm/dfsm-ast-data-structure.c:1060-2335 | Exactly the values of a fuzzed expression: some draws give it a value if and only if a semantics without draws and weights, which knows only the nodes to be fuzzed, allows the value. Of 64-bit signed numbers that is the number in place, the two extremes, and -5 to 2^32 - 1; of other integers anything; of containers left out, repeated and cloned items. |
| Fuzzing.MoreMayHave | dfsm/dfsm-ast-data-structure.c:1060-2335 | Fuzzing more nodes takes no possible value away. |
| Fuzzing.PlainMayHave | dfsm/dfsm-ast-data-structure.c:1060-1064 | Where nothing is fuzzed the plain value is the only one possible, and whatever is fuzzed it stays possible. |
| Exactness.PlainValueIsGuarded | dfsm/dfsm-ast-data-structure.c:1921-2335 | An accepted expression that has a value without fuzzing passes the guard. |
| Exactness.AcceptedGoesWrongIffUnguarded | dfsm/dfsm-ast-expression-binary.c:143-220 | An accepted expression that passes the guard meets, under all fuzzing, none but the untypable faults it has a source of; one that does not pass it has no value at all without fuzzing. |
| Exactness.TameIsSafeIffGuarded | dfsm/dfsm-ast-expression-binary.c:143-220 | For expressions without dictSet() and without `*` and `%` on 32- and 64-bit signed operands: safe under all fuzzing if and only if guarded. |
| Exactness.RepeatFreeIsSafeIffGuarded | dfsm/dfsm-environment.c:951-964 | The same with dictSet(), where neither the expression nor a variable is a source of repeated keys, whichever of a given set of nodes are fuzzed. |
| Exactness.StringAdditionIsAccepted | dfsm/dfsm-ast-expression-binary.c:189-190 | The missing `break`: the sum of any two strings is accepted and then goes wrong. |
| Exactness.MixedArrayIsAccepted | dfsm/dfsm-ast-data-structure.c:673-690 | The loose annotation: an array of a string and a boolean annotated as strings is accepted and then goes wrong. |
| UniqueKeys.ApplyFunctionUnique | dfsm/dfsm-environment.c:516-1258 | On parameters in which no dictionary, at any depth, repeats a key, dictSet() succeeds, and no builtin gives a dictionary that does, unless it inserts an entry. |
| UniqueKeys.EvalUnique | dfsm/dfsm-ast-data-structure.c:1921-2335 | Under every outcome of fuzzing, as long as only the nodes of a given set have a weight, an expression without sources of repeated keys never makes a dictionary that repeats one, at any depth, and never fails in dictSet(). A dictionary literal is a source only if it or one of its keys is in the set, or its keys are not different constants. |
| UniqueKeys.RepeatFreeDependsOnTypes | dfsm/dfsm-environment.c:951-964 | Whether it has such a source depends only on the set and on the names and types of variables. |
| Assignment.SetFromFrame | dfsm/dfsm-ast-data-structure.c:2351-2412 | Assignment changes no variable outside its target, and no variable's type. |
| Assignment.SetFromConforms | dfsm/dfsm-ast-data-structure.c:2351-2412 | Assigning a value keeps every variable conforming to its type. |
| Assignment.StructAssignmentSucceeds | dfsm/dfsm-ast-statement-assignment.c:118-167 | Assigning to structs of variables succeeds whenever the checked types agree. |
| Assignment.ListAssignmentSucceedsIff | dfsm/dfsm-ast-data-structure.c:2362-2412 | Assigning to arrays and structs of variables succeeds if and only if no array of the value is shorter than its target. |
| Assignment.AssignedIsHeld | dfsm/dfsm-ast-data-structure.c:2351-2412 | After assigning to distinct variables the target holds the value, part by part. |
| Assignment.HeldIsRead | dfsm/dfsm-ast-data-structure.c:2527-2596 | Evaluating a target that holds a value gives that value. |
| Assignment.AssignmentLaw | dfsm/dfsm-ast-statement-assignment.c:170-183 | The right side is evaluated before any write; afterwards the left side evaluates to its value, all other variables are unchanged and all types kept. |
| Assignment.SwapLaw | dfsm/dfsm-ast-statement-assignment.c:170-183 | (a, b) = (b, a) swaps two variables of one type and touches no other, fuzzing on or off. |
| Environments.CopyTable | dfsm/dfsm-environment.c:412-428 | Copying a table gives the same contents in new cells that no earlier table holds. |
| Environments.Environment.SetVariableType | dfsm/dfsm-environment.c:301-322 | Declares a new variable without a value, or fails its assertion on an old one; the saved copy is untouched. |
| Environments.Environment.SetVariableValue | dfsm/dfsm-environment.c:360-386 | Overwrites a cell in place under its declared type, with the assertions as faults; no other variable and no saved cell changes. |
| Environments.Environment.UnsetVariable | dfsm/dfsm-environment.c:397-409 | Forgets one variable and changes nothing else. |
| Environments.Environment.SaveResetPoint | dfsm/dfsm-environment.c:441-454 | Saves copies that share no cell with the live tables. |
| Environments.Environment.Reset | dfsm/dfsm-environment.c:464-480 | Restores exactly the saved contents, and keeps the saved copy for the next reset. |
| Simulator.SetFromVariant | dfsm/dfsm-ast-data-structure.c:2351-2412 | The in-place recursion over an assignment target does to the environment what the assignment function says. |
| Simulator.ExecuteStatement | dfsm/dfsm-ast-statement-assignment.c:170-183 | Executing a statement in place has the specified effect on variables, draws and output, or meets its fault; what it outputs is in Outputs.OutputsCorrespond and Outputs.OutputValues. |
| Simulator.ExecuteStatements | dfsm/dfsm-ast-transition.c:598-617 | Executing statements in order has the specified effect, and stops at the first fault. |
| Transitions.PreCheck | dfsm/dfsm-ast-transition.c:179-300 | The counting loops accept exactly one reply or throw on method transitions, none on others, and errors on preconditions only on method transitions. |
| Transitions.StatementsAnswer | dfsm/dfsm-ast-transition.c:598-617 | Running statements outputs one reply or error for each reply or throw statement. |
| Outputs.OutputsCorrespond | dfsm/dfsm-ast-transition.c:598-617 | Whatever is fuzzed, the outputs of statements correspond one to one and in order to those that are not assignments: a signal of its name to an emit, the error of its name to a throw, a reply to a reply. |
| Outputs.OutputValues | dfsm/dfsm-ast-statement-emit.c:204 | Where nothing is fuzzed each carries the plain value of its expression in the variables that the statements before it leave. |
| Outputs.CalmRun | dfsm/dfsm-ast-transition.c:598-617 | Where nothing is fuzzed statements draw nothing and do what they do without fuzzing. |
| Transitions.CheckPreconditionsLoop | dfsm/dfsm-ast-transition.c:545-581 | The loop gives the verdict of the first precondition that fails. |
| Transitions.UnfuzzedCheck | dfsm/dfsm-ast-transition.c:545-581 | Unfuzzed preconditions are satisfied if and only if all hold; otherwise the error is that of the first that does not; nothing is drawn. |
| Transitions.StatementsSound | dfsm/dfsm-ast-transition.c:598-617 | Running the statements of an accepted transition keeps the store conforming and outputs replies and signals of the declared types. |
| Transitions.PreconditionsSound | dfsm/dfsm-ast-transition.c:545-581 | Checking the preconditions of an accepted transition never meets a type fault. |
| Scanning.AtInjective | dfsm/dfsm-machine.c:287-292 | The rotated scan looks at no transition twice. |
| Scanning.AtSurjective | dfsm/dfsm-machine.c:287-292 | A scan that is not cut short looks at every transition. |
| Scanning.VisitMeans | dfsm/dfsm-machine.c:287-369 | The scan stops at the first transition it can run, and otherwise has classified all of them. |
| Scanning.ClassMeans | dfsm/dfsm-machine.c:294-352 | Without fuzzed preconditions a transition is run or put off if and only if it is eligible, and put off only if it throws. |
| Scanning.SettleMeans | dfsm/dfsm-machine.c:327-364 | The two remembered fallbacks, said without the loop: the last transition put off, and the first refusal with an error after it. |
| Scanning.BothFallbacksIff | dfsm/dfsm-machine.c:332-386 | Both fallbacks are left set if and only if nothing ran and a refusal with an error follows the last transition put off. |
| Scanning.IntendedRule | dfsm/dfsm-machine.c:385-387 | Noting failures only while nothing is put off never sets both fallbacks, and differs from the code only where the code sets both. |
| Scanning.SettleByMeans | dfsm/dfsm-machine.c:327-387 | Under either rule: what is remembered, and that both fallbacks are set only under the rule as written. |
| Scanning.ChoiceLaw | dfsm/dfsm-machine.c:259-390 | Under either rule, what is executed was eligible; if anything is eligible something is executed; with fuzzing off a throwing transition is executed only if no eligible one does not throw. |
| Attempts.AttemptEffect | dfsm/dfsm-machine.c:219-390 | An attempt that executes a transition ends where it leads, or where it was if the transition throws; its variables and outputs are those that the statements leave, run once with fuzzing as told. One that executes none changes neither state nor variables. |
| Attempts.ExecutedFromHere | dfsm/dfsm-machine.c:294-318 | Whatever is fuzzed, what is executed leads out of the current state, was permitted by the handler, and had its preconditions found satisfied. |
| Attempts.VerdictStable | dfsm/dfsm-machine.c:371-375 | The second check of unfuzzed preconditions gives the verdict of the first. |
| Attempts.AnsweredUnlessWithdrawn | dfsm/dfsm-machine.c:371-387 | An attempt at a method call outputs exactly one reply or error if it reports success, unless it remembers a refusal, nothing better, and the second check of the refused preconditions does not fail with an error; and none otherwise. |
| Attempts.WithdrawnIsQuiet | dfsm/dfsm-machine.c:371-387 | In that one case it succeeds, reports success and has executed nothing. |
| Attempts.UnfuzzedIsNotWithdrawn | dfsm/dfsm-machine.c:371-375 | That case takes a fuzzed precondition. |
| Attempts.NeverAnswered | dfsm/dfsm-ast-transition.c:217-228 | Attempts at property and arbitrary transitions never output a reply or error. |
| Attempts.AttemptSound | dfsm/dfsm-machine.c:259-390 | An attempt at accepted transitions keeps the store conforming; only its closing assertion or an untypable fault they have a source of stops it, and under the intended rule the assertion never fails. |
| DoubleFallback.BothRecordedIff | dfsm/dfsm-machine.c:332-387 | For given draws, fuzzing on or off: the closing assertion fails if and only if nothing can run, all coins put throwing transitions off, and in scan order the last of these is followed by a refusal with an error. |
| DoubleFallback.BothRecordedPossibleIff | dfsm/dfsm-machine.c:332-387 | Over all draws, fuzzing on or off: some scan sets both fallbacks if and only if nothing can run, a throwing transition is eligible, and some transition is refused with an error. |
| DoubleFallback.AttemptFailsIff | dfsm/dfsm-machine.c:385-387 | An attempt at accepted transitions fails its closing assertion only if both fallbacks are set, and always goes wrong then; without untypable faults it fails in no other case. |
| DoubleFallback.AttemptCanFailIff | dfsm/dfsm-machine.c:259-390 | For accepted transitions without untypable faults and with unfuzzed preconditions, some draws make the attempt fail if and only if the plain verdicts, known before it, clash. |
| DoubleFallback.ScanIsPlain | dfsm/dfsm-machine.c:287-369 | With unfuzzed preconditions a scan looks at everything, and finds the plain verdicts, if and only if nothing can run and the next coins, one for each throwing transition that is eligible, come up to put it off. |
| Machines.BucketMeans | dfsm/dfsm-machine.c:461-511 | A trigger's bucket holds exactly the registered transitions with that trigger. |
| Machines.ContextMeans | dfsm/dfsm-ast-transition.c:312-380 | What a transition is checked against: all signals as first declared, and as local variables the parameters of the method as first declared, with its reply types, or the value of the property. |
| Machines.FirstCounts | dfsm/dfsm-ast-transition.c:312-322 | Of several interfaces of one name, or with one method, property or signal, the first counts. |
| Machines.NoneCounts | dfsm/dfsm-machine.c:586-596 | Nothing is found just where no interface has it. |
| Runs.BindSucceeds | dfsm/dfsm-machine.c:607-624 | Binding matching, distinctly named parameters succeeds and adds just those local variables, each with its value. |
| Runs.UnbindRemoves | dfsm/dfsm-machine.c:633-639 | Unbinding removes the parameters and nothing else. |
| Steps.HandledStep | dfsm/dfsm-machine.c:219-248 | A step that executes a transition ends where the transition leads, or where it was if that throws; variables and outputs are those that its statements leave, run once with the parameters bound; a property counts as changed. |
| Steps.HandledOutputs | dfsm/dfsm-machine.c:219-248 | Its outputs correspond one to one and in order to the statements that are not assignments, with the values of their expressions where nothing in them is fuzzed. |
| Steps.IdleStep | dfsm/dfsm-machine.c:371-390 | A step that executes nothing stays in its state and outputs the error of a refusal that is not withdrawn, or the empty tuple where a call is not answered, or nothing; no variable changes but a property that is set all the same. |
| Steps.UnhandledCall | dfsm/dfsm-machine.c:573-649 | A call without a transition, interface or method always succeeds, is answered once, with the empty tuple, and changes neither state nor variables. |
| Steps.UnhandledSet | dfsm/dfsm-machine.c:671-737 | Setting a property without transitions makes it read as the value and changes nothing else, without output; it counts as changed just when it read otherwise. |
| Steps.UnhandledOther | dfsm/dfsm-machine.c:405-539 | A timeout without transitions does nothing; a reset goes to state 0 and the initial variables, without output. |
| Steps.OutputsHaveSource | dfsm/dfsm-machine.c:405-737 | Every output of every step comes from a statement, or for an error a precondition, of a registered transition that waits for the event and leads out of the current state; or it is the one empty tuple that answers a call. |
| Runs.AttemptMoves | dfsm/dfsm-machine.c:219-248 | A step stays in its state or follows a registered transition without a throw. |
| Runs.StepKeepsInvariant | dfsm/dfsm-machine.c:405-737 | Every method call, property set, timeout and reset keeps the local scope empty, variables conforming, names and types fixed and the state in range; the store's assertions never fail. |
| Runs.RunKeepsInvariant | dfsm/dfsm-machine.c:405-737 | The same after every run of an accepted and guarded machine, under all random choices; a run is only ever stopped by an untypable fault the machine has a source of, or by the closing assertion where the fallbacks may clash. |
| Mismatch.SecondDeclarationFails | dfsm/dfsm-ast-transition.c:312-322 | A call through the second of two interfaces that declare a method differently meets a type fault, in a machine that is accepted and guarded. |
| UniqueRuns.RunUnique | dfsm/dfsm-machine.c:405-737 | In no run of a machine without sources of repeated keys, for the nodes that have a weight, driven by events without any, does a variable come to hold a dictionary with a repeated key or dictSet() fail. |
| DoubleFallback.NotBothRecorded | dfsm/dfsm-machine.c:332-387 | A bucket that never mixes throwing transitions and throwing preconditions out of one state cannot set both fallbacks, fuzzed or not. |
| Progress.RunNeverFails | dfsm/dfsm-machine.c:259-737 | A machine that has no source of untypable faults, or uses dictSet() without a source of repeated keys, never gets stuck, whatever is called and drawn, if its fallbacks cannot clash; they cannot under the intended rule. |
| Progress.EveryCallIsAnswered | dfsm/dfsm-machine.c:556-652 | In every run of such a machine every step succeeds and every call is answered exactly once, unless a fuzzed precondition makes it withdraw its refusal. |
| Progress.AlwaysAnsweredIff | dfsm/dfsm-machine.c:556-652 | At any point of any run of such a machine a call is answered whatever is drawn if and only if there is not a transition that some draws refuse with an error and some check without one, while each of the others can be passed by. |
| Progress.IntendedRuleIsSafe | dfsm/dfsm-machine.c:385-387 | Under the intended rule every accepted and guarded machine without other faults is such a machine. |
| Progress.AttemptAgrees | dfsm/dfsm-machine.c:327-387 | An attempt that the code gets through goes the same way under the intended rule. |
| Progress.RunAgrees | dfsm/dfsm-machine.c:259-737 | The intended rule changes no run that the code gets through. |
| Answers.StepAnswers | dfsm/dfsm-machine.c:556-737 | A method call that is got through is answered exactly once on every path, the unit-reply fallback included, unless its refusal is withdrawn; property sets, timeouts and resets never are. |
| Answers.EveryCallIsAnsweredOnce | dfsm/dfsm-machine.c:556-652 | The same at every step of every run; and no refusal is withdrawn where no precondition is fuzzed. |
| Answers.LoneRefusalWithdrawn | dfsm/dfsm-machine.c:371-375 | If the second check passes where the first refused, nothing is output although success is reported. |
| Answers.FuzzedPreconditionLosesAnswer | dfsm/dfsm-machine.c:371-375 | A concrete call with a fuzzed precondition that goes unanswered. |
| Locality.EvalLocal | dfsm/dfsm-ast-data-structure.c:1921-2335 | Evaluation depends on the draws it takes and on nothing else of the tape: with the same weights and the same next draws it gives the same value and takes as many. |
| Locality.CheckLocal | dfsm/dfsm-ast-transition.c:545-581 | So does checking preconditions. |
| Possibilities.ScanCanBe | dfsm/dfsm-machine.c:287-369 | Whatever is fuzzed, any combination of classes that some draws give to each transition on its own is found by one scan under some draws, which can go on in any way. |
| Possibilities.LossPossibleIff | dfsm/dfsm-machine.c:259-390 | Over all draws, whatever is fuzzed: an attempt can withdraw its refusal if and only if one transition can be refused with an error and can be checked without one, and each of the others can be passed by. |
| Possibilities.CallCanLoseAnswerIff | dfsm/dfsm-machine.c:556-652 | The same of a call to a machine in any configuration: some draws lose its answer just then. |
| Possibilities.ClashPossibleIff | dfsm/dfsm-machine.c:332-387 | Over all draws, whatever is fuzzed: an attempt can set both fallbacks if and only if one transition can be put off, another can be refused with an error, and none need run. |
| Possibilities.FuzzedAttemptCanFailIff | dfsm/dfsm-machine.c:259-390 | So for accepted transitions without untypable faults some draws make the attempt fail just then, also where preconditions are fuzzed. |
| FuzzedTransitions.CanJudgeIff | dfsm/dfsm-ast-transition.c:545-581 | Some draws give preconditions a verdict if and only if the values their conditions can have allow it. |
| FuzzedTransitions.ClassPossibleIff | dfsm/dfsm-machine.c:294-352 | Some draws lead a scan to a class for a transition if and only if the possible values of its conditions allow it; so the conditions of Possibilities can be told without draws. |
| FuzzedTransitions.WithdrawPossibleIff | dfsm/dfsm-machine.c:371-375 | A refusal of a transition can be withdrawn if and only if its conditions can give a refusal with an error and also a verdict without one. |
| FuzzedTransitions.CanDoIff | dfsm/dfsm-ast-transition.c:598-617 | Some draws have statements leave given variables and output given things if and only if each in turn can, by the values its expression can have. |
| FuzzedTransitions.CanExecuteIff | dfsm/dfsm-machine.c:219-390 | Some draws have an attempt execute a transition with a given outcome if and only if it leads out of the current state, is permitted, its preconditions can all hold, and its statements can do that; for a throwing transition with fuzzing off only the first half, since that is executed only where nothing better is found. |
| FuzzedTransitions.CanHandleIff | dfsm/dfsm-machine.c:405-737 | The same of a step: exactly those variables and outputs can come of handling the event by the transition. |
| Reachability.EdgeLevelMeans | dfsm/dfsm-machine.c:778-796 | The level between two states is that of their best transition: reachable without preconditions, possibly reachable with. |
| Reachability.SetTransitionMatrixEntries | dfsm/dfsm-machine.c:778-796 | Raises the flattened matrix by exactly the transitions of one array. |
| Reachability.BuildTransitionMatrix | dfsm/dfsm-machine.c:799-829 | The matrix holds, for every pair of states, the level of the best transition of all arrays. |
| Reachability.PopMostReachable | dfsm/dfsm-machine.c:740-769 | Pops a state no other queued state is more reachable than, and removes just one queue entry. |
| Reachability.RelaxNeighbours | dfsm/dfsm-machine.c:916-940 | Raises every state to what the popped one can give it, and no further. |
| Reachability.CalculateStateReachability | dfsm/dfsm-machine.c:882-944 | Every state ends with the maximum over all paths from state 0 of the minimum level along the path. |
| Reachability.BestIsUnique | dfsm/dfsm-machine.c:867-881 | That maximum is unique, so the order in which the queue breaks ties does not matter. |
| Lint.StepConnected | dfsm/dfsm-machine.c:219-248 | Every step stays, returns to the start by a reset, or follows a registered transition without a throw. |
| Lint.RunFollowsPath | dfsm/dfsm-machine.c:219-248 | The state any run ends in has a path of transitions without throws. |
| Lint.UnreachableIsNeverEntered | bendy-bus-lint/main.c:153-170 | No run, whatever is called and drawn, enters a state the analysis calls unreachable. |
| Lint.UnreachableWithoutThrowsIsNeverEntered | dfsm/dfsm-machine.c:234-247 | The same of the analysis without the throwing transitions, which finds more. |
| Lint.AimedAttempt | dfsm/dfsm-machine.c:287-369 | With the right offset the scan starts at a given transition that may be run, does not throw and has unfuzzed preconditions; the attempt executes it, ends where it leads, and does exactly what executing it does. |
| Lint.EligibleIsTaken | dfsm/dfsm-machine.c:405-737 | Progress of every eligible transition: at any point of any run, an event whose first draw points at a transition out of the current state that is permitted, does not throw, and whose unfuzzed preconditions hold, ends in the state it leads to, or meets an untypable fault this very transition has a source of; whatever else is drawn, with fuzzing on or off. |
| Lint.FreeIsTaken | dfsm/dfsm-machine.c:405-737 | Every transition out of the current state without preconditions and throws is taken by some event that it waits for and that fits the interfaces, fuzzing off, default handler, unless that meets an untypable fault this very transition has a source of; a repeated key is none if it has no source of those. |
| Lint.ReachableByMovesIsEntered | dfsm/dfsm-machine.c:927-937 | To a state reachable without preconditions, by transitions of which those do not throw, an actual run leads along a path of them, or it is stopped on the path by an untypable fault of the very transition it was to take. If none of them has such faults, or only dictSet() without a source of repeated keys, a run ends in the state. |
| Lint.ReachableIsEntered | dfsm/dfsm-machine.c:927-937 | The same of every state the whole analysis calls reachable, if no transition without preconditions throws. |
| Lint.ThrowingTransitionMisleads | dfsm/dfsm-machine.c:786-794 | A state reached only by a throwing transition is called reachable and never entered. |
| FaultyMove.FaultMisleads | dfsm/dfsm-machine.c:786-794 | A state that only an overflowing transition leads to is called reachable in a machine that passes every check, and runs without fuzzing never enter it. |
| LintTool.BucketsHoldAllEdges | dfsm/dfsm-machine.c:799-829 | The arrays in the machine's tables hold between them exactly the registered transitions. |
| LintTool.Analyse | bendy-bus-lint/main.c:142-183 | The analysis of a machine object, in whatever order its tables are read: exact levels; unreachable states are never entered; in an accepted and guarded machine in which no transition without preconditions throws, to every reachable state a run leads along a path, or is stopped on it by a fault of the transition it was to take; where those transitions have no faults, the run ends in the state. |
| MachineObjects.SortTransitions | dfsm/dfsm-machine.c:455-511 | The tables by trigger hold each trigger's transitions in order of registration. |
| MachineObjects.LookUpInterface | dfsm/dfsm-machine.c:589-596 | The loop finds the first interface of the name. |
| MachineObjects.Examine | dfsm/dfsm-machine.c:290-352 | Examining one transition gives its class, drawing a coin only for a throwing transition with fuzzing on. |
| MachineObjects.Scan | dfsm/dfsm-machine.c:287-369 | The loop with its two mutable fallbacks computes the specified scan. |
| MachineObjects.BindParameters | dfsm/dfsm-machine.c:605-624 | The loop over parameters declares and sets as many local variables as there are both parameters and values. |
| MachineObjects.UnbindParameters | dfsm/dfsm-machine.c:633-639 | The loop removes the same variables again. |
| MachineObjects.Machine.constructor | dfsm/dfsm-machine.c:442-513 | A new machine is in state 0, has saved its environment, and has its transitions sorted. |
| MachineObjects.Machine.ExecuteTransition | dfsm/dfsm-machine.c:219-248 | Executes in place what the specification says, changing the state unless the transition throws; Attempts.AttemptEffect and Steps.HandledStep say what that is. |
| MachineObjects.Machine.FindAndExecuteRandomTransition | dfsm/dfsm-machine.c:259-390 | Scan and fallbacks have exactly the specified effect on state, variables, draws and output. |
| MachineObjects.Machine.MakeArbitraryTransition | dfsm/dfsm-machine.c:405-429 | Does what the specified step does. |
| MachineObjects.Machine.CallMethod | dfsm/dfsm-machine.c:556-652 | Does what the specified step does, with a unit reply for unknown methods and unanswered calls, as Steps.UnhandledCall and Steps.IdleStep say. |
| MachineObjects.Machine.SetProperty | dfsm/dfsm-machine.c:671-737 | Does what the specified step does, and returns whether the property changed. |
| MachineObjects.Machine.ResetState | dfsm/dfsm-machine.c:523-539 | State 0 and the initial variables, from the saved copy. |
| Driver.Perform | dfsm/dfsm-machine.c:405-737 | One event takes a machine object through exactly the specified step. |
| Driver.PerformAll | dfsm/dfsm-machine.c:405-737 | A sequence of events takes a machine object through exactly the specified run, so all that is proved of runs holds of objects. |
| Driver.RunAndReset | dfsm/dfsm-machine.c:523-539 | Whatever has happened, resets included, a reset restores state 0 and the variables the machine was made with. |
| OutputSequences.OutputSequence.Add | dfsm/dfsm-dbus-output-sequence.c:303-341 | Appends one entry at the tail. |
| OutputSequences.OutputSequence.SendAll | dfsm/dfsm-dbus-output-sequence.c:237-300 | Sends entries in order up to the first signal that cannot be emitted, which is lost; the rest stays queued. |
| OutputSequences.SentAnswer | dfsm/dfsm-dbus-output-sequence.c:237-300 | An answered call is answered on the bus if and only if no signal queued before the answer fails. |
| Checking.LookUpSignal | dfsm/dfsm-ast-statement-emit.c:131-194 | The loop finds the first interface that declares the signal, its name and the parameter types. |
| Checking.DeclareArgsMeans | dfsm/dfsm-ast-transition.c:332-346 | Declaring a method's parameters fails its assertion if and only if a name repeats. |
| Checking.RemoveArgsMeans | dfsm/dfsm-ast-transition.c:447-461 | Removing them leaves the other variables alone. |
| Checking.CheckedIsCalculated | dfsm/dfsm-ast-expression.c:49-72 | The type that is calculated of an expression without checking it is the one the checker gives, if it passes the check. |
| Checking.CheckReply | dfsm/dfsm-ast-transition.c:346-378 | The reply is compared by its calculated type before it is checked, and this aborts if and only if the calculation does. |
| Checking.CheckTransition | dfsm/dfsm-ast-transition.c:303-462 | Accepts a transition if and only if its parts check in the context of its trigger, and leaves the environment as it was; aborts if and only if a method has a parameter twice or the type of its reply cannot be calculated. |
| InitialStore.DefineVariables | dfsm/dfsm-ast-object.c:571-605 | The loop over definitions evaluates and stores each in turn. |
| InitialStore.InitialValues | dfsm/dfsm-ast-object.c:571-605 | Every defined variable has the type of its definition and a value this can have in what the definitions before it left, the plain one where nothing is fuzzed; variables that were there stay as they were. |
| InitialStore.InitialNames | dfsm/dfsm-ast-object.c:571-605 | And no other variables appear. |
| InitialStore.DefineConforms | dfsm/dfsm-ast-object.c:571-605 | A guarded definition of a new name keeps the store conforming; one of an old name fails, which no earlier check reports. |
| InitialStore.InitialStoreConforms | dfsm/dfsm-ast-object.c:571-605 | The initial variables conform to their types, under distinct names. |
| InitialStore.InitialStoreUnique | dfsm/dfsm-ast-object.c:571-605 | Definitions without sources of repeated keys, for the nodes that have a weight, give variables without repeated keys, and none fails in dictSet(). |
| ObjectStates.NumberStates | dfsm/dfsm-ast-object.c:417-464 | Succeeds if and only if there is a first state, all other names are valid and all are distinct; the table is then the inverse of the numbering. |
| ObjectStates.NumberingPermutes | dfsm/dfsm-ast-object.c:417-464 | Numbering neither loses nor invents a state. |
| ObjectStates.StartIsFirstWritten | dfsm/dfsm-bison.y:263-270 | State 0 is the first state written in the first block, since the grammar stores lists backwards. |
| ObjectStates.RegisterTransitions | dfsm/dfsm-ast-object.c:466-520 | Succeeds if and only if every transition passes its pre-check and names known states, and registers one transition per pair in order. |
| ObjectStates.RegisteredWithin | dfsm/dfsm-machine.c:771-776 | Every registered transition has state numbers in range, as the matrix assertions demand. |
| ObjectStates.JoinsUnique | dfsm/dfsm-ast-object.c:466-520 | With distinct names a pair of names determines what is registered. |
| Registration.RegisterOnBusData.NameAcquired | dfsm/dfsm-object.c:1022-1033 | The callback does the specified step. |
| Registration.RegisterOnBusData.NameLost | dfsm/dfsm-object.c:1036-1052 | The callback does the specified step. |
| Registration.RegisterOnBusData.FinishOperation | dfsm/dfsm-object.c:1001-1019 | Starts the simulation or hands over the error, completes once, and drops the operation's reference. |
| Registration.RegisterOnBusData.ReleaseHold | dfsm/dfsm-object.c:1177-1182 | The end of the requesting loop does the specified step. |
| Registration.RecordReflects | dfsm/dfsm-object.c:971-1052 | In every legal interleaving the counter, the references and the completion state are functions of what has happened. |
| Registration.FinishesExactlyOnce | dfsm/dfsm-object.c:1001-1052 | The operation completes exactly once, exactly when the loop has ended and the last name has reported, and starts the simulation if and only if no name was lost. |
| Registration.NeverUsedAfterFree | dfsm/dfsm-object.c:980-998 | Whatever legally happens next finds the record alive, and the counter never goes below zero. |
| Registration.FreedAtTheEnd | dfsm/dfsm-object.c:989-998 | The record is freed if and only if the operation is over and every name has been given up. |
| Registration.ReportsAreCounted | dfsm/dfsm-object.c:1001-1052 | When names may report any number of times, at any time, the record is a function of the counts: the operation completes as soon as the loop has ended and there have been as many reports as names, and starts the simulation if and only if none of those was a loss; more reports than names while names are still requested complete it early. |
| Registration.EarlyIff | dfsm/dfsm-object.c:1022-1052 | It completes early if and only if at some time before the loop has ended there have been more reports than names requested. |
| Registration.CompletesTwiceIff | dfsm/dfsm-object.c:1155-1182 | It never completes more than twice, and twice if and only if it completed early and the loop then requested exactly one more name before it ended. |
| Registration.FinishesEarlyIff | dfsm/dfsm-object.c:1022-1052 | It completes before some requested name has reported if and only if other names have reported again instead. |
| Registration.SecondReportFinishesEarly | dfsm/dfsm-object.c:1022-1052 | A name acquired and then lost while another is awaited ends the operation early. |
| Registration.LoopIsLegal | dfsm/dfsm-object.c:1155-1178 | The requesting loop, which skips names requested before, makes a legal schedule that requests all names, whatever the list. |
| Registration.RequestNames | dfsm/dfsm-object.c:1155-1178 | The loop requests each name once and releases its hold, and the record is that of the schedule. |
| Registration.Replay | dfsm/dfsm-object.c:1001-1052 | Driven through any schedule of callbacks the record is that of the schedule. |
| Registration.Register | dfsm/dfsm-object.c:1138-1182 | Registering any names under any legal callbacks completes when all names have reported, and starts the simulation if and only if none was lost. |
| Utf8.ValidConcat | dfsm/dfsm-ast-data-structure.c:1504-1627 | Valid texts put together are valid. |
| Utf8.AsciiBoundaries | dfsm/dfsm-ast-data-structure.c:1184-1205 | Valid text can be cut on either side of any ASCII character. |
| Utf8.PositionsAreBoundaries | dfsm/dfsm-ast-data-structure.c:1239-1245 | The position of a character, counted in characters, is a boundary. |
| Blocks.PassMeans | dfsm/dfsm-ast-data-structure.c:1184-1204 | The position k stands for lies just after separator k + 1, or at the end if there are fewer. |
| Blocks.FindBlockWithSeparator | dfsm/dfsm-ast-data-structure.c:1153-1205 | Finds the block that two draws choose: their two separators are counted, put in order and passed. |
| Blocks.SeparatedBlockMeans | dfsm/dfsm-ast-data-structure.c:1153-1205 | The block starts right after a separator, so never at the start of the text, and ends right after a later one or at the end, at character boundaries. |
| Blocks.FindSeparators | dfsm/dfsm-ast-data-structure.c:1222-1233 | The loop, although it may stop early, finds exactly the separators present and counts their kinds. |
| Blocks.ChooseSeparator | dfsm/dfsm-ast-data-structure.c:1251-1270 | Chooses, of the separators present, the one whose share of the range the draw falls into, or none if the draw is past the last share. |
| Blocks.FindRandomBlock | dfsm/dfsm-ast-data-structure.c:1210-1282 | Finds the block that is a function of the text and the draws, and fails its assertion if and only if that function has no block. |
| Blocks.RandomBlock | dfsm/dfsm-ast-data-structure.c:1210-1282 | There is no block if and only if the draw for the separator is in the rounding gap; otherwise it lies in order at character boundaries of the text. |
| Blocks.RandomBlockSeparated | dfsm/dfsm-ast-data-structure.c:1251-1265 | In text with separators the block lies between two of the kind drawn, or one and the end, and not at the start. |
| Blocks.SeparatedBlocksAreDrawn | dfsm/dfsm-ast-data-structure.c:1251-1265 | Every block between two separators of one kind, or one and the end, is that of some draws. |
| Blocks.CharacterBlocksAreDrawn | dfsm/dfsm-ast-data-structure.c:1235-1249 | In text without separators every block of characters that does not start at its end is that of some draws. |
| Blocks.GapIsSmall | dfsm/dfsm-ast-data-structure.c:1257-1270 | A draw in the gap is among the last few of the range, fewer than there are kinds of separators; with one kind only the very last draw is. |
| BlockSurgery.DeleteBlock | dfsm/dfsm-ast-data-structure.c:1504-1519 | The text without the block that the draws choose, which is valid; nothing if and only if the draws choose none. |
| BlockSurgery.CloneBlock | dfsm/dfsm-ast-data-structure.c:1564-1581 | The text with the block that the draws choose doubled, which is valid; nothing if and only if the draws choose none. |
| BlockSurgery.DeleteUndoesClone | dfsm/dfsm-ast-data-structure.c:1504-1581 | Deleting the clone gives the text back. |
| BlockSurgery.FillBlock | dfsm/dfsm-ast-data-structure.c:1529-1561 | The loop and the fall-through fill exactly the block in place, and no byte beside it. |
| BlockSurgery.OverwriteBlock | dfsm/dfsm-ast-data-structure.c:1520-1563 | Valid text of the same length in which exactly the block that the draws choose is overwritten; nothing if and only if the draws choose none. |
| BlockSurgery.SwapBlocks | dfsm/dfsm-ast-data-structure.c:1582-1627 | The block of the first draws and that of the second, from the larger portion the first leaves, change places; the result is valid and a permutation of the bytes. There is none if and only if one of the two choices falls into the rounding gap of the text it is made from. |
| BlockSurgery.OtherBlockMeans | dfsm/dfsm-ast-data-structure.c:1590-1612 | The second block is one of the whole text that never overlaps the first, and is missing if and only if its draw is in the gap of the larger portion. |
| BlockSurgery.SwapUndoesSwap | dfsm/dfsm-ast-data-structure.c:1582-1627 | Swapping the two blocks again, where they now are, gives the text back. |
| BlockSurgery.GenerateWhitespace | dfsm/dfsm-ast-data-structure.c:1285-1301 | Fills a buffer with whitespace, from its end. |
| BlockSurgery.PadText | dfsm/dfsm-ast-data-structure.c:1683-1716 | The padded text is valid and contains the text between whitespace. |
| BlockSurgery.ChangeCase | dfsm/dfsm-ast-data-structure.c:1432-1453 | Valid text of the same length in which exactly the bytes at the places that the draws choose have the case of an ASCII letter flipped. |
| BlockSurgery.PlacesAreDrawn | dfsm/dfsm-ast-data-structure.c:1432-1453 | Any places each of which is more than twice as far on as the one before are those that some draws choose. |

## Left out

- Dictionary targets of assignments (dfsm/dfsm-ast-data-structure.c:2413-2475): children are fetched with a stale index, so no useful law holds; the model gives them a fault.
- Floating point: doubles are reals, so rounding, infinities and NaN are not modelled.
- Unix file descriptors.
- The text of fuzzed strings inside evaluation: a fuzzed string literal evaluates to an arbitrary string; its block surgery is modelled separately, on bytes.
- Replacing letters and adding separators in the string fuzzer, and the tables of Unicode characters behind them (dfsm/dfsm-ast-data-structure.c:1304-1378, 1454-1503, 1628-1681).
- The grammar of random type signatures: a fuzzed signature is any D-Bus signature.
- Probabilities: a biased choice is a draw that leaves every outcome open.
- The lexer and the grammar, except for the order in which state lists are stored.
- D-Bus transport, introspection XML, and the validity tests for bus, interface, error and member names, which are GLib's.
- Reference counting, except for the registration record; timers, signals, logging and printed output; the programs around the library.
- Continuing after a GLib warning: the model stops there with a type fault.
- The `dfsm_object` layer above the machine, except for registration: dispatch of bus requests and the count of transitions before fuzzing starts, which become the events and the `enable` flag of the model.
- Interfaces with two declarations of one member name, which GLib resolves by order.
- Nicknames of transitions: the check-transition handler is any function of the position of a transition in its array.
- Runs.StepKeepsInvariant: supposes that parameters match the declared signature and that a method called through an interface is declared with the same parameters as in the first interface that has it, because the checker looks only at the first; Mismatch.SecondDeclarationFails shows that the supposition is needed.
- Runs.RunKeepsInvariant: supposes the same of every event.
- Answers.EveryCallIsAnsweredOnce: supposes that the step succeeds, which Progress.EveryCallIsAnswered proves.
- Progress.RunNeverFails: under the rule as written, supposes that no state mixes throwing transitions and throwing preconditions under one trigger; the exact conditions for one attempt are in DoubleFallback and Possibilities.
- FuzzedTransitions.CanExecuteIff: says of a transition that throws, with fuzzing off, only what is necessary; it is executed only where nothing better is found, which Scanning.ChoiceLaw and DoubleFallback say.
- Lint.EligibleIsTaken: supposes that the preconditions of the transition are not fuzzed; otherwise FuzzedTransitions.CanHandleIff says whether some draws take it.
- Typing.TypedIff: of expressions as parsing leaves them, over variables whose types have values, as those of every conforming store do.
- Exactness.TameIsSafeIffGuarded: for other expressions only the untypable faults remain possible, which depends on values.
- UniqueKeys.EvalUnique: tells sources of repeated keys by their form, so it excludes dictionary literals that may be fuzzed themselves or with such keys, or whose keys are not different constants, entries put together into arrays, and pairKeys() on anything but the keys of a dictionary or different constants, whatever the values happen to be.
- Registration.FinishesExactlyOnce: supposes that each name reports at most once and fewer than 2^32 - 2 happenings; what repeated reports do is in Registration.ReportsAreCounted.
- Transitions.PreCheck: leaves out the validity of names and the pre-checks of the conditions and statements themselves.
- ObjectStates.RegisterTransitions: leaves out the same.
- Checking.CheckTransition: reports structHead() of an empty struct where the check aborts, except in a reply.
- Assignment.AssignmentLaw: for targets without dictionaries whose array parts have as many variables as the value has elements.
- LintTool.Analyse: says nothing of reachable states where a transition without preconditions throws; Lint.ThrowingTransitionMisleads shows why.
- Lint.ReachableIsEntered: whether a fault that the way to a state has a source of does occur depends on values; FaultyMove.FaultMisleads shows that it can.
