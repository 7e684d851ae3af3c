# Models and proofs for VapStd and CatSyn

A Dafny project that models the parts of the repository where a mistake is easy to make and hard to see, and proves
what they promise. `dafny verify dfyconfig.toml` checks all of it.

- **The Expr compiler** (`Expr*.dfy`). Text is split into tokens and parsed to a tree; the optimizer rewrites the tree;
  value numbering finds equal subtrees; each number is emitted once as three-address code; registers are renamed; the
  interpreter runs the result. Parsing, numbering, emission, renaming and interpretation are proved for *any* meaning
  of the operators, so the results hold for floats and NaN. The rewrites are proved over the exact reals, where a value
  may be undefined: what is owed is that a defined value stays. For every pass it is also proved exactly when it
  changes a tree, which says what a finished loop leaves behind. Renaming is also proved optimal.
- **The frame scheduler** (`Substrate*.dfy`). A state machine of clients, a maintainer and workers, with an invariant
  that holds in every interleaving; and the maintainer's own code over tables updated in place, proved to take the
  steps of that machine.
- **The lock-free pieces** (`Queue.dfy`, `WorkQueue.dfy`, `Wedge.dfy`), as sequentially consistent steps.
- **Loops with a simple specification**: the box blur (`BoxBlur.dfy`), the order of cached steps (`Pathway.dfy`) and
  the frame maps of DuplicateFrames and DeleteFrames (`Reorder.dfy`).

## Where the code does not keep what its comments say

Each is proved: the code is modelled as it is, a lemma or method gives an input that fails, and the condition under
which the code is right is proved.

- Writing a sum back drops its scalar when no other term is left (VapStd/exprfilter.cpp:2735-2737): `x x - 3 +` becomes
  0. `ExprSumNode.SumRewriteKeepsIff` states the condition, both ways, in terms of the coefficients of the sum;
  `ExprAlgebraFails.ScalarIsDropped` is the failure.
- `(a ** b) ** c = a ** (b * c)` (VapStd/exprfilter.cpp:2975) loses the sign that an even inner power has removed: the
  square root of `x ** 2` becomes `x`. `ExprLocal.PowerPowerKeepsIff` states exactly when;
  `ExprLocal.RootOfSquareFails` is the failure.
- Expanding a product under a fractional power (VapStd/exprfilter.cpp:2507-2521) has the same fault:
  `(x * x) ** 0.5 / y` becomes `x / y`. The absolute value is kept (`ExprMagnitude.AbsExpansion`);
  `ExprProductNode.ProductRewriteKeepsIff` states exactly when the sign is, and `ExprProduct.ExpandedKeepsIff` when one
  entry may be expanded. `ExprAlgebraFails.FractionalExpansionFails` is the failure.
- Neither of the two faults of powers comes up in an expression without roots whose exponents are whole constants, in any
  run of the optimizer that drops no scalar: `ExprOptimize.TameRun`, `ExprOptimize.WholeTokensFine`.
- Strength reduction rewrites `-a + b` without reporting a change (VapStd/exprfilter.cpp:3092-3097), so the loop around it
  can end with a tree it would rewrite again: `ExprNormalStrength.UnreportedChange`. `ExprNormalStrength.ReportsIff` states
  exactly when a report is missing.
- `a < b` turned into `b - a` changes the value of the subtree (`ExprComparison.SubtreeValueChanges`); the root's value
  is kept.
- A second request for a frame that is not finished replaces the callback of the first (CatSyn/src/substrate.cpp:260).
  The scheduler's theorems say so: a callback is queued, held, called or replaced, and never called twice.

## Assumptions

- `ExprPower.Lawful` states the laws of the C library's `pow`, `exp` and `log` over the reals: whole powers are repeated
  products, negative numbers have no other powers, powers of positive numbers are positive and multiply as powers do,
  and `exp` and `log` undo each other.
- A decoded token carries the immediate of its operator (`ExprOptimize.IsNumericToken`).
- The filters' dependencies are acyclic (`Substrate.Acyclic`), and processing a frame is a function of its key and its
  inputs.
- `std::sort` and `qsort` return their input in some order; the comparators of the algebraic pass are left open.

## Model

| member | source | states |
|---|---|---|
| ExprTokens.Tokenize | VapStd/exprfilter.cpp:2078-2098 | the tokens are exactly the words of the text, in order |
| ExprTokens.WordsOfSpaced | VapStd/exprfilter.cpp:2078-2098 | round trip: words written with any white space between them come back when the text is split |
| ExprTokens.TextIsSpaced | VapStd/exprfilter.cpp:2078-2098 | every text is its words with white space between them, so splitting loses nothing else |
| ExprParse.ParseToken | VapStd/exprfilter.cpp:2209-2272 | one token does to the stack of trees what it does to an operand stack whose operators build nodes, with the same errors in the same order |
| ExprParse.ParseExpr | VapStd/exprfilter.cpp:2206-2282 | the parser is the operand-stack program whose operators build nodes: same tree or same error |
| ExprParse.SwapExchanges | VapStd/exprfilter.cpp:2234-2235 | a swap exchanges the last value of the stack with the one so far below it and touches nothing else |
| ExprParse.SwapTwice | VapStd/exprfilter.cpp:2234-2235 | the same swap twice gives the stack back |
| ExprParse.DupCopies | VapStd/exprfilter.cpp:2232-2233 | a dup puts a copy of the value so far below the last on top and touches nothing else |
| ExprParse.OperatorReplaces | VapStd/exprfilter.cpp:2236-2271 | any other operator takes its operands off the top of the stack, in their order, and leaves its value there |
| ExprParse.StepFailsIff | VapStd/exprfilter.cpp:2210-2216 | a token fails for a clip that is not there, and otherwise exactly when the stack is too short |
| ExprParse.LoadIsOfFormat | VapStd/exprfilter.cpp:2218-2230 | a load reads samples of the width and kind of its clip, at the same index |
| ExprParse.StackErrorStays | VapStd/exprfilter.cpp:2206-2215 | an error at some token is the result however the text goes on |
| ExprParse.StepMatches | VapStd/exprfilter.cpp:2209-2272 | one token keeps the parser's trees well formed and worth what the operand stack of values holds |
| ExprParse.ParseKeepsMeaning | VapStd/exprfilter.cpp:2162-2282 | for any meaning of the operators: the parser accepts exactly the texts whose operand-stack run ends with one value, with the same error otherwise, and its tree evaluates to that value |
| ExprValueNumber.Numbering.Visit | VapStd/exprfilter.cpp:2402-2416 | the walk over a list that grows in place is the recursive numbering |
| ExprValueNumber.EqualSubTreeIsStructural | VapStd/exprfilter.cpp:2063-2076 | the shortcut through value numbers decides structural equality |
| ExprValueNumber.NumberIsFaithful | VapStd/exprfilter.cpp:2392-2417 | numbering keeps the structure, every number names one structure, and operands are numbered before what uses them |
| ExprValueNumber.SameNumberIffIdentical | VapStd/exprfilter.cpp:2392-2417 | two subtrees of a numbered tree have the same number if and only if they are structurally identical |
| ExprValueNumber.RootIsLast | VapStd/exprfilter.cpp:3386 | the root gets the last number, so the store reads the root |
| ExprCode.ExprInterpreter.Run | VapStd/exprfilter.cpp:1909-1972 | the interpreter over its register array computes the meaning of the code, with every register index in range |
| ExprCode.Emitter.Visit | VapStd/exprfilter.cpp:3342-3370 | the emitting walk appends the instructions of the nodes whose number was not emitted yet |
| ExprCode.EmitFollowsNumbering | VapStd/exprfilter.cpp:3342-3370 | walking a numbered tree emits one instruction per new number, in the order of the numbers |
| ExprCode.CodeComputes | VapStd/exprfilter.cpp:3342-3370 | when register k holds the value of the node numbered k for every k below n, the rest of the emitted code stores the value of the last node |
| ExprCode.EmittedProgram | VapStd/exprfilter.cpp:3340-3387 | the emitted program is the code of the numbered nodes followed by one store of the root |
| ExprCode.EmitKeepsMeaning | VapStd/exprfilter.cpp:3340-3387 | for any meaning of the operators: the emitted program stores the value of the tree |
| ExprRename.RenameRegisters | VapStd/exprfilter.cpp:3278-3322 | renaming in place makes a renaming of the code in the sense of the following lemmas |
| ExprRename.StepInv | VapStd/exprfilter.cpp:3288-3315 | one instruction keeps the invariant of the table and the free list |
| ExprRename.LiveValuesApart | VapStd/exprfilter.cpp:3278-3322 | two values alive at once are in different registers, and no live register is free |
| ExprRename.RenameKeepsMeaning | VapStd/exprfilter.cpp:3278-3322 | for any single-assignment program and any meaning of the operators the renamed program stores the same value |
| ExprRename.NothingIsLost | VapStd/exprfilter.cpp:3310-3315 | when destinations are numbered in order, every register written so far is live or free |
| ExprRename.DestinationBelowLive | VapStd/exprfilter.cpp:3310-3315 | a destination is a number below the count of values alive once it is written |
| ExprRename.RenameUsesThePeak | VapStd/exprfilter.cpp:3278-3322 | the registers written are 0, 1, ... up to the peak number of values alive at once, none skipped |
| ExprRename.NoAllocationBelowPeak | VapStd/exprfilter.cpp:3278-3322 | no assignment of registers that keeps live values apart uses fewer than the peak |
| ExprCompile.Compile | VapStd/exprfilter.cpp:3340-3391 | numbering, emission, store and renaming together give a renaming of the emitted program |
| ExprCompile.StoreIsOfFormat | VapStd/exprfilter.cpp:3372-3384 | a store writes samples of the width and kind of the output, and knows their bits where it clamps to 16 |
| ExprCompile.EmitIsDense | VapStd/exprfilter.cpp:3342-3387 | emitted code assigns 0, 1, 2, ... once each, reads only earlier values, and reads every value later |
| ExprCompile.CompileKeepsMeaning | VapStd/exprfilter.cpp:3340-3391 | for any meaning of the operators the compiled program stores the value of the tree |
| ExprCompile.RegistersAreThePeak | VapStd/exprfilter.cpp:1896-1904 | the interpreter allocates exactly as many registers as values are alive at once |
| ExprCompile.ExpressionKeepsMeaning | VapStd/exprfilter.cpp:3324-3391 | from tokens to the stored value, without the optimizer, for any meaning of the operators |
| ExprReal.ValIsEval | VapStd/exprfilter.cpp:1919-1967 | the exact value of a tree is its evaluation under the exact meaning of the operators, so the compiler's theorems apply to it |
| ExprReal.KeepsUnder | VapStd/exprfilter.cpp:2379-2384 | putting operands that keep their values under an operator keeps its value |
| ExprLaws.LogicByTruth | VapStd/exprfilter.cpp:1957-1960 | and, or, xor and not give one or zero by the truth of their operands |
| ExprLaws.DeMorgan | VapStd/exprfilter.cpp:1957-1960 | De Morgan's laws, double negation up to truth, and exclusive or through the others |
| ExprLaws.ComparedOneWay | VapStd/exprfilter.cpp:1945-1955 | of two numbers one is less, equal or greater; the other comparisons are negations of these, and turning one around exchanges less and greater |
| ExprLaws.Extremes | VapStd/exprfilter.cpp:1936-1937 | the greater of two numbers is one of them and not less than either, and with the smaller makes up both |
| ExprLaws.AbsoluteValue | VapStd/exprfilter.cpp:1944 | an absolute value is the greater of a number and its negation, and takes no sign |
| ExprLaws.TernaryChooses | VapStd/exprfilter.cpp:1956 | a ternary takes the branch its condition chooses, whatever the other one is worth |
| ExprPower.PowersMultiply | VapStd/exprfilter.cpp:2502-2506 | powers of one base multiply by adding exponents wherever both are defined |
| ExprPower.PowerOfPower | VapStd/exprfilter.cpp:2502-2506 | a power of a power multiplies the exponents if the outer one is whole or the base is not negative |
| ExprPower.PowerOfTimesIff | VapStd/exprfilter.cpp:2507-2513 | a power of a product may be taken factor by factor if and only if the exponent is whole, no factor is negative, or the power is undefined |
| ExprPower.PowerOfQuotientIff | VapStd/exprfilter.cpp:2514-2521 | a power of a quotient is the power of the numerator times the opposite power of the denominator if and only if the exponent is whole, neither part is negative, or the power is undefined |
| ExprPower.PowerPowerIff | VapStd/exprfilter.cpp:2975-2985 | a power of a power multiplies the exponents if and only if it is not the case that the base is negative, the inner exponent even and the product of the exponents not even |
| ExprRewrite.PostorderKeeps | VapStd/exprfilter.cpp:2018-2024 | a postorder pass whose visitor keeps every node's value keeps the value of the tree |
| ExprRewrite.CleanupKeeps | VapStd/exprfilter.cpp:3030-3057 | the cleanup pass keeps the value of every tree over the reals |
| ExprRewrite.CleanupIsClean | VapStd/exprfilter.cpp:3030-3057 | one cleanup pass leaves no neutral operand anywhere in the tree |
| ExprNormal.CleanupRewritesIff | VapStd/exprfilter.cpp:3030-3057 | the cleanup pass reports a change exactly when a neutral operand is in the tree |
| ExprStrength.SumsKeeps | VapStd/exprfilter.cpp:3069-3104 | the rules for negation, in their order, keep the value |
| ExprStrength.TwiceKeeps | VapStd/exprfilter.cpp:3106-3112 | doubling as an addition keeps the value whatever the parent is |
| ExprStrength.ProductsKeeps | VapStd/exprfilter.cpp:3114-3134 | the rules for constant divisors and reciprocals keep the value |
| ExprStrength.QuotientTimesKeeps | VapStd/exprfilter.cpp:3136-3142 | the swap for (a / b) * c leaves a tree of the same value |
| ExprStrength.TimesQuotientKeeps | VapStd/exprfilter.cpp:3144-3152 | the three swaps for a * (b / c) leave a tree of the same value |
| ExprStrength.OverQuotientKeeps | VapStd/exprfilter.cpp:3154-3160 | the swaps for a / (b / c) leave a tree of the same value |
| ExprStrength.QuotientOverKeeps | VapStd/exprfilter.cpp:3162-3169 | the three swaps for (a / b) / c leave a tree of the same value |
| ExprStrength.HalfPowerKeeps | VapStd/exprfilter.cpp:3171-3178 | a half power is the root of a whole power wherever it is defined |
| ExprStrength.NegativePowerKeeps | VapStd/exprfilter.cpp:3180-3188 | a negative power is one over the positive power |
| ExprStrength.IntegerPowerIsPower | VapStd/exprfilter.cpp:2419-2428 | the balanced product of n copies of x is worth the n-th power of x, for every n above zero |
| ExprStrength.IntegerPowerIsShallow | VapStd/exprfilter.cpp:2419-2428 | the product of n copies is balanced: up to 2^k copies are at most k multiplications deep |
| ExprStrength.StrengthNodeKeeps | VapStd/exprfilter.cpp:3064-3196 | all rules of a node in their order keep its value |
| ExprStrength.StrengthKeeps | VapStd/exprfilter.cpp:3060-3199 | strength reduction keeps the value of every tree over the reals, whatever parent pointers show |
| ExprNormalStrength.StrengthNodeIff | VapStd/exprfilter.cpp:3064-3196 | the rules of a node rewrite it exactly when one of the patterns they are for is there; none undoes another |
| ExprNormalStrength.StrengthRewritesIff | VapStd/exprfilter.cpp:3060-3199 | strength reduction rewrites a tree exactly when one of these patterns is somewhere in it |
| ExprNormalStrength.ReportsIff | VapStd/exprfilter.cpp:3092-3097 | it reports no change exactly when none of them is in the tree, or all it comes upon are sums -a + b |
| ExprNormalStrength.UnreportedChange | VapStd/exprfilter.cpp:3092-3097 | a concrete case: of -(-x) + y it makes y - (-x), reports nothing, and leaves a pattern it would rewrite |
| ExprFusion.FusedForms | VapStd/exprfilter.cpp:3226-3248 | each of the four fused signs is the sum or difference it replaces |
| ExprFusion.DistributeKeeps | VapStd/exprfilter.cpp:3250-3258 | distributing a constant over a sum, by exchanging operators and constants, keeps the value |
| ExprFusion.OppositeValue | VapStd/exprfilter.cpp:3260-3272 | negating a fused operation is the fused operation of the opposite kind |
| ExprFusion.FusionKeeps | VapStd/exprfilter.cpp:3201-3276 | fusion keeps the value of every tree over the reals, however often subtrees are shared |
| ExprNormal.RefCountIsCopies | VapStd/exprfilter.cpp:3208-3214 | the count of a number is the number of copies of that part in the tree |
| ExprNormal.SumFusesTo | VapStd/exprfilter.cpp:3225-3248 | a sum or difference over a product that may be elided becomes the fused operation of the other operand and the two factors |
| ExprNormal.FusionIff | VapStd/exprfilter.cpp:3201-3276 | fusion leaves the numbered tree as it is exactly when no sum or difference in it has a product that may be elided, no constant stands over such a sum with a constant, and no negation over such a fused operation |
| ExprComparison.SameNumberSameValue | VapStd/exprfilter.cpp:2864 | equal value numbers of a numbered tree mean equal values |
| ExprComparison.MinMaxKeeps | VapStd/exprfilter.cpp:2882-2905 | a ternary recognised as a minimum or maximum has that value |
| ExprComparison.KeepsUseUnder | VapStd/exprfilter.cpp:2908 | and, or, xor and the condition of a ternary depend only on signs |
| ExprComparison.DifferenceKeepsSign | VapStd/exprfilter.cpp:2907-2920 | a comparison turned into a difference keeps its sign |
| ExprComparison.ComparisonWalkKeeps | VapStd/exprfilter.cpp:2861-2923 | the walk keeps the value of every part, or its sign where only the sign is used |
| ExprComparison.ComparisonsKeep | VapStd/exprfilter.cpp:2855-2926 | the comparison pass keeps the value of the root |
| ExprComparison.SubtreeValueChanges | VapStd/exprfilter.cpp:2911-2916 | it does not keep the values of subtrees: 1 < 3 becomes 3 - 1 |
| ExprNormal.ComparisonsIff | VapStd/exprfilter.cpp:2855-2926 | the comparison pass leaves the numbered tree as it is exactly when there is no comparison of identical operands, no ternary of identical branches or of the operands of its comparison, and no strict comparison of which only the sign is used |
| ExprLocal.ArithmeticKeeps | VapStd/exprfilter.cpp:2937-2973 | folding, moving constants and the identities up to x ** 0 keep the value |
| ExprLocal.PowerPowerKeepsIff | VapStd/exprfilter.cpp:2975-2985 | the rule for nested powers keeps the value of a node if and only if it is not the case that the base is negative, the inner exponent even and the product of the exponents not even |
| ExprLocal.RootOfSquareFails | VapStd/exprfilter.cpp:2956-2985 | a concrete failure of that rule: the square root of the square of -1 |
| ExprLocal.ConditionsKeep | VapStd/exprfilter.cpp:2987-3024 | the rules for ternaries and negated comparisons keep the value |
| ExprLocal.LocalKeeps | VapStd/exprfilter.cpp:2928-3028 | the local pass keeps the value of the tree if the rule for nested powers loses no sign at any node it meets |
| ExprNormalLocal.LocalNodeIff | VapStd/exprfilter.cpp:2934-3024 | the rules of a node rewrite it exactly when one of the patterns they are for is there; none undoes another |
| ExprNormalLocal.LocalRewritesIff | VapStd/exprfilter.cpp:2928-3028 | the local pass reports a change exactly when one of these patterns is somewhere in the tree, such as an operator that reads no clip |
| ExprTame.TamePowersFine | VapStd/exprfilter.cpp:2975-2985 | under whole exponents the rule for nested powers loses no sign, whatever the bases are |
| ExprTame.TameWalkFine | VapStd/exprfilter.cpp:2928-3028 | on a tree without roots whose exponents are all whole, the local pass loses no sign at any node it meets: the condition of LocalKeeps read off the tree it gets |
| ExprTame.TameLocal | VapStd/exprfilter.cpp:2928-3028 | so on such a tree the local pass keeps the value, and it leaves such a tree |
| ExprTame.TameStrength | VapStd/exprfilter.cpp:3060-3199 | strength reduction keeps the value and makes no root and no fractional power of a tree without them |
| ExprTame.TameFusion | VapStd/exprfilter.cpp:3201-3276 | the same for fusion |
| ExprTame.TameComparisons | VapStd/exprfilter.cpp:2855-2926 | the same for the comparison pass |
| ExprTame.TameCleanup | VapStd/exprfilter.cpp:3030-3057 | the same for cleanup |
| ExprProduct.AddedKeeps | VapStd/exprfilter.cpp:2550-2554 | adding to an exponent multiplies the product by that power |
| ExprProduct.ExpandedKeeps | VapStd/exprfilter.cpp:2502-2526 | in any map, replacing an entry of a product, quotient or power by entries of its operands keeps the product, for a whole exponent |
| ExprProduct.ExpandedKeepsIff | VapStd/exprfilter.cpp:2502-2526 | for one entry with any exponent: expanding it keeps its power if and only if there is no value to keep, the inner power loses no sign, the exponent is whole or no operand is negative, or a number is divided by itself |
| ExprExpansion.ExpandedWhole | VapStd/exprfilter.cpp:2502-2526 | exponents that can still be expanded stay whole |
| ExprExpansion.ExpandedLighter | VapStd/exprfilter.cpp:2502-2526 | expanding replaces a number by smaller ones and so ends |
| ExprExpansion.SplitKeepsExpansion | VapStd/exprfilter.cpp:2494-2533 | expanding any one entry leaves what the map finally expands to, so the order of the walk does not matter |
| ExprExpansion.UnsplitExpansion | VapStd/exprfilter.cpp:2582-2586 | a map with nothing to expand is what it expands to |
| ExprExpansion.ExpansionKeeps | VapStd/exprfilter.cpp:2582-2586 | the map in which every number is a product of powers of numbers that cannot be expanded has the product of the map, over whole exponents |
| ExprExpansion.CoefficientKeeps | VapStd/exprfilter.cpp:2535-2546 | taking the constants into the coefficient keeps coefficient times product |
| ExprExpansion.ExpandedTermKeeps | VapStd/exprfilter.cpp:2582-2588 | an expanded term has the value of the term, over whole exponents |
| ExprExpansion.ExpandedTermIsBasic | VapStd/exprfilter.cpp:2582-2588 | nothing in an expanded term is a product, a quotient, a power by a constant, or a constant |
| ExprMagnitude.AbsExpansion | VapStd/exprfilter.cpp:2494-2533 | for any exponents, fractional ones too, expanding keeps the absolute value of the product |
| ExprMagnitude.ProductSigned | VapStd/exprfilter.cpp:2550-2554 | without roots of negative numbers a product is its absolute value, negative exactly when an odd number of negative numbers have exponents that are not even |
| ExprMagnitude.ExpandedTermKeepsIff | VapStd/exprfilter.cpp:2582-2588 | for any exponents a product expanded to the end keeps its value if and only if no operand that is left is negative under a fractional exponent and, unless the value is zero, no constant is either and the odd powers of negative numbers give it its sign |
| ExprTermTree.OrderedProduct | VapStd/exprfilter.cpp:2605-2606 | a product does not depend on the order of its factors |
| ExprTermTree.TermTreeVal | VapStd/exprfilter.cpp:2603-2635 | the tree a term is written back as has exactly its value, whatever order its factors are sorted in |
| ExprTermTree.FactorsInOrder | VapStd/exprfilter.cpp:2605-2626 | the factors are written from left to right in the order they are sorted in |
| ExprExponents.ExponentMap.AddTerm | VapStd/exprfilter.cpp:2550-2554 | one exponent grows, from zero if it was missing, and every other entry stays |
| ExprExponents.ExponentMap.ExpandOnePass | VapStd/exprfilter.cpp:2494-2533 | a pass over the map in place keeps what it expands to and every number in the index; it reports no change exactly when nothing can be expanded, and otherwise makes the map lighter |
| ExprExponents.ExponentMap.CombineConstants | VapStd/exprfilter.cpp:2535-2546 | every constant leaves the map, its power goes into the coefficient, and nothing else changes |
| ExprExponents.ExponentMap.Expand | VapStd/exprfilter.cpp:2582-2588 | the passes end, and the map and coefficient are then those of the expanded term |
| ExprExponents.ExponentMap.Emit | VapStd/exprfilter.cpp:2603-2635 | the loop over the sorted entries makes the tree of the term |
| ExprSum.SumPermuted | VapStd/exprfilter.cpp:2706-2710 | a sum does not depend on the order of its terms |
| ExprSum.SumExpanded | VapStd/exprfilter.cpp:2668-2670 | expanding every term keeps the sum, over whole exponents |
| ExprSum.CollectCoeff | VapStd/exprfilter.cpp:2682-2696 | collecting like terms conserves the coefficient of every product |
| ExprSum.CollectIsCollected | VapStd/exprfilter.cpp:2682-2696 | after collecting no two terms are alike and none has coefficient zero |
| ExprSum.NothingCollected | VapStd/exprfilter.cpp:2682-2696 | nothing is left after collecting if and only if the coefficients of every product cancel |
| ExprSum.SumCollect | VapStd/exprfilter.cpp:2682-2696 | collecting like terms keeps the sum |
| ExprSum.SumTreeVal | VapStd/exprfilter.cpp:2713-2740 | the tree a sum is written back as is worth the terms plus the scalar, but zero when no term is left |
| ExprAdditive.AdditiveSequence.AddTerm | VapStd/exprfilter.cpp:2656-2662 | appends a term of one factor with its sign, as a new object |
| ExprAdditive.AdditiveSequence.ExpandTerms | VapStd/exprfilter.cpp:2668-2670 | the loop expands every term to the end in place |
| ExprAdditive.AdditiveSequence.TakeScalars | VapStd/exprfilter.cpp:2672-2680 | the erasing loop leaves exactly the terms with factors, in order, and adds the coefficients of the others to the scalar |
| ExprAdditive.AdditiveSequence.CollectTerms | VapStd/exprfilter.cpp:2682-2696 | the nested loops with erasure leave one term for each product whose coefficients do not cancel, in the order the products first come up |
| ExprAdditive.AdditiveSequence.Expand | VapStd/exprfilter.cpp:2666-2697 | terms and scalar are those of the expanded terms, taken apart and collected |
| ExprAdditive.AdditiveSequence.Canonicalize | VapStd/exprfilter.cpp:2699-2711 | the terms in the order of the comparator, and whether they already had it |
| ExprAdditive.PickedIsPermuted | VapStd/exprfilter.cpp:2699-2711 | sorting keeps every term as often as it was there |
| ExprAdditive.AdditiveSequence.Emit | VapStd/exprfilter.cpp:2713-2740 | the loop over the terms makes the tree of the sum, sign of the scalar included |
| ExprSumNode.LeafTermsSum | VapStd/exprfilter.cpp:2749-2771 | the signed terms of a sum add up to its value |
| ExprSumNode.DropsScalarIff | VapStd/exprfilter.cpp:2735-2737 | no term is left and the scalar is not zero if and only if every product of the sum has coefficient zero and its numbers do not add up to zero |
| ExprSumNode.SumRewriteKeepsIff | VapStd/exprfilter.cpp:2743-2783 | over whole exponents a sum that is written back keeps its value if and only if it has none, or some product has a coefficient other than zero, or its numbers add up to zero |
| ExprSumNode.DropsScalarChanges | VapStd/exprfilter.cpp:2777 | a sum that would drop its scalar is always written back |
| ExprSumNode.SumRewriteInOrder | VapStd/exprfilter.cpp:2713-2740 | the terms left are written from left to right in the order of the comparator, and behind them the scalar with its sign |
| ExprProductNode.LeafFactorsProduct | VapStd/exprfilter.cpp:2793-2818 | the factors of a product, with the signs of their exponents, multiply up to its value |
| ExprProductNode.ProductRewriteKeepsIff | VapStd/exprfilter.cpp:2785-2829 | a product with any exponents that is written back keeps its value if and only if it has none or the signs of its operands allow it, in the sense of the last condition on expanded products |
| ExprProductNode.ProductRewriteKeeps | VapStd/exprfilter.cpp:2785-2829 | it always does when no product, quotient or power stands under a fractional power |
| ExprSite.SiteIsThere | VapStd/exprfilter.cpp:2837-2850 | the walk stops at a topmost sum or product that changes, and passes over the whole tree only if there is none |
| ExprSite.SiteIsFirst | VapStd/exprfilter.cpp:2837-2850 | no topmost sum or product before it in preorder changes |
| ExprSite.ReplaceAtKeeps | VapStd/exprfilter.cpp:2777-2780 | replacing one part of a tree by one of the same value keeps the value of the tree |
| ExprAlgebra.RewriteKeepsIff | VapStd/exprfilter.cpp:2831-2853 | what the pass rewrites keeps its value if and only if it is a sum that has no value or does not drop its scalar (whole exponents in sums), or a product whose signs allow it |
| ExprAlgebra.AlgebraicKeeps | VapStd/exprfilter.cpp:2831-2853 | the pass keeps the value of the tree if what it rewrites keeps its own value |
| ExprAlgebra.AllWholeSiteFine | VapStd/exprfilter.cpp:2831-2853 | a condition on the tree the pass gets: no product, quotient or power stands under a fractional power, and no scalar is dropped |
| ExprAlgebra.CollectSum | VapStd/exprfilter.cpp:2749-2771 | the walk appends the signed terms of the sum, counts them and indexes their nodes |
| ExprAlgebra.AnalyzeAdditive | VapStd/exprfilter.cpp:2743-2783 | the method decides as specified whether the sum changes and makes exactly the tree SumRewriteKeepsIff is about |
| ExprAlgebra.CollectProduct | VapStd/exprfilter.cpp:2793-2818 | the walk adds up the exponents of the factors, and counts factors and divisions |
| ExprAlgebra.AnalyzeMultiplicative | VapStd/exprfilter.cpp:2785-2829 | the method decides as specified whether the product changes and makes exactly the tree ProductRewriteKeeps is about |
| ExprAlgebra.AlgebraicWalk | VapStd/exprfilter.cpp:2837-2850 | the walk changes nothing but the first sum or product that changes |
| ExprAlgebra.AlgebraicOptimizations | VapStd/exprfilter.cpp:2831-2853 | the pass is the tree with at most that one sum or product rewritten, and reports whether there was one |
| ExprAlgebraFails.ScalarIsDropped | VapStd/exprfilter.cpp:2735-2737 | a concrete failure: the pass rewrites x - x + 3, worth 3 for every x, at its root and makes a tree worth 0 |
| ExprAlgebraFails.FractionalExpansionFails | VapStd/exprfilter.cpp:2507-2521 | a concrete failure: the pass rewrites (x * x) ** 0.5 / y at its root, and for x = -1 and y = 1 makes a tree worth -1 of one worth 1 |
| ExprNormalAlgebra.CollectCount | VapStd/exprfilter.cpp:2682-2696 | collecting leaves one term for each product whose coefficients do not cancel |
| ExprNormalAlgebra.ChangesIff | VapStd/exprfilter.cpp:2777 | a sum stays exactly when it has no more terms than products left and a number, and is in order; a product when it has no division, no more factors than bases and a number, and is in order |
| ExprNormalAlgebra.AlgebraicIff | VapStd/exprfilter.cpp:2831-2853 | the pass reports no change exactly when every topmost sum and product of the tree stays |
| ExprTameAlgebra.TameExpansion | VapStd/exprfilter.cpp:2502-2526 | expanding makes no fractional exponent where there was none |
| ExprTameAlgebra.TameAlgebraic | VapStd/exprfilter.cpp:2831-2853 | on a tree without roots whose exponents are all whole the pass keeps the value unless it drops a scalar, and leaves such a tree |
| ExprOptimize.RunKeeps | VapStd/exprfilter.cpp:3332-3338 | any finite run of the six passes in any order keeps the value, if each pass met its condition on the tree it got |
| ExprOptimize.TameRun | VapStd/exprfilter.cpp:3332-3338 | on a tree without roots whose exponents are all whole every pass of a run meets its condition, as long as no algebraic pass drops a scalar |
| ExprOptimize.RunPasses | VapStd/exprfilter.cpp:3332-3338 | the passes run one after the other make the specified tree, and keep the value if each met its condition |
| ExprOptimize.PassReportsIff | VapStd/exprfilter.cpp:3332-3338 | each of the six passes reports a change exactly when something it looks for is in the tree, but for the unreported rule |
| ExprOptimize.QuietRoundIsNormal | VapStd/exprfilter.cpp:3332-3338 | after a round in which no pass reports a change, nothing that any of its passes looks for is left |
| ExprOptimize.FirstLoopEnds | VapStd/exprfilter.cpp:3332-3334 | when the first loop ends, no rule of its three passes applies anywhere in the tree |
| ExprOptimize.SecondLoopEnds | VapStd/exprfilter.cpp:3336-3338 | when the second loop ends, no rule of its three passes applies, if the last strength reduction came upon no -a + b |
| ExprOptimize.ParsedWhole | VapStd/exprfilter.cpp:2209-2272 | tokens without roots whose powers stand right behind whole constants are parsed to trees without roots whose exponents are whole constants |
| ExprOptimize.WholeTokensFine | VapStd/exprfilter.cpp:3324-3338 | for such tokens every pass of a run meets its condition, as long as no algebraic pass drops a scalar |
| ExprOptimize.CompileExpression | VapStd/exprfilter.cpp:3324-3391 | from tokens to the stored value through parser, passes and back end: it fails exactly where the operand stack fails, with the same error, and otherwise, if every pass met its condition, the code stores the number the operand stack ends with |
| SubstrateInv.TakeKeepsCore | CatSyn/src/substrate.cpp:94-96 | taking a frame, or dropping a frame that was taken before, keeps the invariant |
| SubstrateInv.FinishKeepsCore | CatSyn/src/substrate.cpp:115-129 | storing the frame a worker has computed keeps the invariant |
| SubstrateInv.FinishedIsReference | CatSyn/src/substrate.cpp:116-122 | what a worker computes from the products of the inputs is what the recursive evaluator computes |
| SubstrateInv.ReportKeepsCore | CatSyn/src/substrate.cpp:128-129 | reporting a stored product keeps the invariant |
| SubstrateInv.FailKeepsCore | CatSyn/src/substrate.cpp:124-127 | a frame whose processing threw keeps the invariant |
| SubstrateInv.GiveUpKeepsCore | CatSyn/src/substrate.cpp:132-134 | giving a frame up because the filter is locked keeps the invariant |
| SubstrateInv.PushBackKeepsCore | CatSyn/src/substrate.cpp:135 | pushing a given-up frame back keeps the invariant |
| SubstrateInv.EvictKeepsCore | CatSyn/src/substrate.cpp:225-236 | evicting a frame keeps the invariant |
| SubstrateInv.RequestKeepsCore | CatSyn/src/substrate.cpp:337-339 | a request keeps the invariant |
| SubstrateConstruct.AttachKeepsCore | CatSyn/src/substrate.cpp:254-262 | answering or holding the callback of a request for a known frame keeps the invariant |
| SubstrateConstruct.ConstructKeepsCore | CatSyn/src/substrate.cpp:246-307 | constructing a frame with all it depends on keeps the invariant, keeps all live frames alive under their keys, and returns a live frame of the key asked for |
| SubstrateNotify.KillTreeIsExact | CatSyn/src/substrate.cpp:309-318 | killing a frame removes exactly the live frames that can be reached from it through live outputs |
| SubstrateNotify.KillTreeSendsErrors | CatSyn/src/substrate.cpp:311-313 | every frame killed has its data dropped once and a held callback gets the error, and no other frame is touched |
| SubstrateMaintain.FinishedKeepsCore | CatSyn/src/substrate.cpp:187-207 | handling the report of a finished frame keeps the invariant |
| SubstrateMaintain.FailedKeepsCore | CatSyn/src/substrate.cpp:187-207 | handling the report of a failed frame keeps the invariant |
| SubstrateMaintain.EarliestIsChosen | CatSyn/src/substrate.cpp:215-221 | of the frames waiting in an open neck one of the smallest tick is chosen |
| SubstrateMaintain.OneChosen | CatSyn/src/substrate.cpp:215-221 | a neck releases one frame at a time |
| SubstrateMaintain.ReleaseKeepsCore | CatSyn/src/substrate.cpp:215-221 | releasing from the necks keeps the invariant, and afterwards no frame waits in an open neck |
| SubstrateMaintain.MaintainKeepsCore | CatSyn/src/substrate.cpp:182-222 | handling a task and releasing keeps the invariant |
| SubstrateMaintainer.Maintainer.Construct | CatSyn/src/substrate.cpp:246-307 | the recursive construction over tables updated in place is the specified one |
| SubstrateMaintainer.Maintainer.KillTree | CatSyn/src/substrate.cpp:309-318 | the recursive killing over tables updated in place is the specified one |
| SubstrateMaintainer.Maintainer.HandleReport | CatSyn/src/substrate.cpp:184-208 | handling a report in place is the specified step |
| SubstrateMaintainer.Maintainer.SendOutputs | CatSyn/src/substrate.cpp:194-197 | the loop over the outputs sends on exactly the live unfinished outputs whose inputs are all finished |
| SubstrateMaintainer.Maintainer.ReleaseNecks | CatSyn/src/substrate.cpp:215-221 | the loop over the necks releases the earliest frame of every open neck |
| SubstrateMaintainer.Maintainer.Turn | CatSyn/src/substrate.cpp:182-222 | one turn of the maintainer is the specified task with the release after it, and keeps the invariant |
| SubstrateMaintainer.Maintainer.EvictAll | CatSyn/src/substrate.cpp:225-239 | the eviction loop removes exactly the frames that could be evicted when it started and are not to be kept, whatever the order of the table, and keeps the invariant |
| SubstrateCallbacks.MaintainConserves | CatSyn/src/substrate.cpp:182-222 | a task loses no callback and makes none twice: each is queued, held, replaced or called |
| SubstrateRun.RunKeepsInv | CatSyn/src/substrate.cpp:92-331 | the invariant holds after every interleaving of requests, tasks, evictions and worker steps |
| SubstrateRun.FramesAreReference | CatSyn/src/substrate.cpp:173-307 | every product, and every frame a callback receives, is what the plain recursive evaluator gives for that key, also after eviction and recomputation |
| SubstrateRun.WorkerFindsInputs | CatSyn/src/substrate.cpp:115-120 | a frame a worker has taken is alive and unfinished, and every input of it is in the table with its product |
| SubstrateRun.ComputedOnce | CatSyn/src/substrate.cpp:95-96 | a frame instance is computed at most once, however often it was posted |
| SubstrateRun.DataDroppedOnce | CatSyn/src/substrate.cpp:115-130 | the data of an instance is dropped once, by the worker or by the killing, and never twice |
| SubstrateRun.CalledAtMostOnce | CatSyn/src/substrate.cpp:256-261 | no callback is called twice, and one that a later request replaced is never called |
| SubstrateRun.OneFramePerFilter | CatSyn/src/substrate.cpp:188-221 | of a single-threaded filter at most one frame is between release and handled report |
| SubstrateRun.FailureIsExact | CatSyn/src/substrate.cpp:198-205 | a failure removes exactly the live frames reachable from the failed one, and the table keeps exactly the live instances |
| SubstrateRun.FailureSparesWorkers | CatSyn/src/substrate.cpp:198-205 | none of the dependents that die with a failed frame was ever handed to a worker |
| SubstrateRun.FailureDropsAndAnswers | CatSyn/src/substrate.cpp:309-318 | each frame that dies has its data dropped once more than before, and a callback it held is called with the error and let go |
| SubstrateRun.NoFrameStuck | CatSyn/src/substrate.cpp:182-327 | when the queues are empty and no worker is busy, every frame in the table is finished, no callback is held, no frame waits in a neck and no neck is busy |
| SubstrateOrder.ConstructMakes | CatSyn/src/substrate.cpp:274-304 | every frame that a request makes has the tick of its time, and the frame before it as an input if its filter is linear and that frame was in the table |
| SubstrateOrder.TickIsOfCreation | CatSyn/src/substrate.cpp:277 | a frame has, for good, the tick of the time it was made |
| SubstrateOrder.LinearWaits | CatSyn/src/substrate.cpp:288-294 | a frame of a linear filter is with no worker, waits in no neck and has no product before the frame before it has one, if that was in the table when it was made |
| SubstrateAnswers.AnswersAreAsked | CatSyn/src/substrate.cpp:337-339 | whoever is called with a frame gets the frame that was asked for with that callback, as the recursive evaluator gives it |
| SubstrateAnswers.ReferenceIs | CatSyn/src/substrate.cpp:116-122 | the recursive evaluator hands a filter the frames it depends on, each in its place |
| SubstrateAnswers.ErrorsComeFromFailures | CatSyn/src/substrate.cpp:198-207 | as long as processing has not thrown, every callback that was called got a frame |
| SubstrateAnswers.WorkCanGoOn | CatSyn/src/substrate.cpp:92-240 | as long as something is queued or a worker is busy, the maintainer or a worker can go on |
| SubstrateAnswers.QuietCanBeEvicted | CatSyn/src/substrate.cpp:225-236 | when nothing is queued and no worker is busy, every frame in the table can be evicted |
| Queue.StepKeepsInv | CatSyn/src/queue.h:29-76 | every step of a producer or the consumer finds the nodes it touches and keeps the invariant |
| Queue.ReceivedInOrder | CatSyn/src/queue.h:29-76 | whatever the interleaving, values come out in the order the head was swung, none twice and none left out |
| Queue.ReceivedIsPushed | CatSyn/src/queue.h:29-76 | what has come out is the beginning of what the pushes of the run have put in |
| Queue.LoadTakesNext | CatSyn/src/queue.h:49-60 | looking for the next value takes it exactly when there is one and the producer that pushed it has linked it |
| Queue.NothingIsLost | CatSyn/src/queue.h:30-53 | a value not received yet is in its node and the node is live |
| Queue.NoFreedAccess | CatSyn/src/queue.h:31-54 | no step reads or writes a freed node |
| Queue.BlockedIsEmpty | CatSyn/src/queue.h:32-69 | when the consumer is blocked and no producer is in the middle of a push, every value of a notifying push was received |
| Queue.EmptyMeansEmpty | CatSyn/src/queue.h:62-71 | a pop that does not wait gives up only when everything swung was received |
| WorkQueue.StepKeepsInv | CatSyn/src/queue.h:144-176 | every step of a producer or worker keeps the invariant of the priority queue |
| WorkQueue.PopsTheBest | CatSyn/src/queue.h:155-163 | an item that is popped was pushed and not popped yet, and no item of a higher rank was |
| WorkQueue.LookingCanTake | CatSyn/src/queue.h:155-163 | a worker that looks at the heap takes an item if there is one |
| WorkQueue.BlockedIsEmpty | CatSyn/src/queue.h:144-176 | when all workers are blocked and no producer is in the middle of a push, everything pushed was popped as often as it was pushed |
| Wedge.HighestMeansAlone | CatSyn/src/queue.h:222-228 | the highest bit is set exactly while a worker holds the lock alone, and the counter never wraps |
| Wedge.ZeroMeansFree | CatSyn/src/queue.h:230-233 | a counter at zero means that nobody is in a call |
| Wedge.StepKeepsInv | CatSyn/src/queue.h:222-241 | every step keeps the counter equal to what the workers have added |
| Wedge.ExclusiveIsAlone | CatSyn/src/queue.h:222-241 | a worker that holds the lock alone is the only one in a call, also while others have bumped the counter and not taken it back |
| Wedge.TryIsExact | CatSyn/src/queue.h:222-241 | a try fails only where it has to: sharing while somebody is alone, and taking the lock alone while somebody is in a call or has bumped the counter, or when the exchange fails spuriously |
| Wedge.FirstCallIsAlone | CatSyn/src/substrate.cpp:103-115 | a worker's first call into a filter overlaps no other call under the same counter |
| BoxBlur.PixelBetween | VapStd/boxblurfilter.cpp:52 | a pixel lies between any bounds of its window |
| BoxBlur.ClampIsNearest | VapStd/boxblurfilter.cpp:52 | a position outside of the row is read at the nearest one inside |
| BoxBlur.PassesRoundInTurn | VapStd/boxblurfilter.cpp:71-80 | of one pass after another the first rounds the mean of every clamped window up, the next down, and so on in turn |
| BoxBlur.BlursAreMade | VapStd/boxblurfilter.cpp:71-80 | a row is the result of so many passes exactly when it is made of the first by passes that round up and down in turn |
| BoxBlur.BlurH | VapStd/boxblurfilter.cpp:45-69 | for every width and every radius up to 30000 each pixel is the rounded mean of its clamped window; indices stay in the row and the accumulator does not wrap |
| BoxBlur.BlurHR1 | VapStd/boxblurfilter.cpp:132-169 | the in-place blur of two pixels at a time gives what the general blur of radius one gives on an untouched copy |
| BoxBlur.ProcessPlane | VapStd/boxblurfilter.cpp:71-86 | every row ends in the destination as so many passes that round the mean of the clamped window up and down in turn make it, whichever buffer came first, and padding is untouched |
| BoxBlur.ProcessPlaneR1 | VapStd/boxblurfilter.cpp:172-182 | the same for radius one, made in place after the first pass |
| Pathway.CmpTable | CatSyn/src/pathway.cpp:83-111 | the loop with recursion into nested tables is the specified comparison |
| Pathway.TextIsLexicographic | CatSyn/src/pathway.cpp:72-80 | texts compare as in a dictionary |
| Pathway.CompareChain | CatSyn/src/pathway.cpp:75-119 | comparisons compose: at most, and less if either step is less |
| Pathway.StrictWeakOrder | CatSyn/src/pathway.cpp:114-120 | irreflexive, asymmetric, transitive, and incomparability is transitive, over tables nested to any depth |
| Pathway.EquivalentIffSame | CatSyn/src/pathway.cpp:114-120 | two steps are equivalent if and only if their names are equal and their tables are equal up to the first missing entry |
| Reorder.DuplicateSource | VapStd/reorderfilters.c:643-648 | the loop shows every source frame once and once more for each time it is listed, in order |
| Reorder.DuplicatedShows | VapStd/reorderfilters.c:643-648 | that list has each source frame once and once more for each time it is listed, and no other |
| Reorder.DuplicatedInOrder | VapStd/reorderfilters.c:643-648 | and is in order |
| Reorder.DeleteSource | VapStd/reorderfilters.c:723-728 | the loop shows exactly the frames not listed, in order |
| Reorder.RemainingShows | VapStd/reorderfilters.c:723-728 | that list has exactly the frames that are not listed, in order |
| Reorder.CreateDelete | VapStd/reorderfilters.c:765-794 | a list is refused for a frame out of range, else for a frame listed twice, else exactly when it lists as many frames as there are; the new length counts the frames left |

## Left out

- `decodeToken` (which operator or number a token is), and the sample conversions of loads and stores: an operator and
  its immediate stand for them.
- The JIT back ends, SIMD, half floats and the polynomial approximations of exp, log, sin and cos.
- Float rounding in the rewrites; infinities and NaN there are the missing value, and a constant that would become one
  (a folded undefined constant, the reciprocal of zero) is left open, as its value is undefined before the rewrite.
  A constant factor whose power is undefined counts as zero in a coefficient.
- Overflow of the exponent in `static_cast<int>` for a power of more than 2147483647.
- `parent` pointers, which `swapNodeContents` leaves stale: a pass goes down the tree, and the one rule that reads a
  parent after such a swap (x * 2) is proved for whatever it sees.
- `origSequence` and `isCanonical` in `ExponentMap`, which only decide whether a product is written back: both outcomes
  are covered.
- Termination of the outer optimizer loops; `ExprOptimize.RunKeeps` covers every finite run.
- ExprSumNode.SumRewriteKeepsIff: for sums whose terms have whole exponents; with fractional ones errors of several terms
  may cancel. For products the condition is exact with any exponents.
- ExprLocal.LocalKeeps: the condition is on the nodes the walk meets, and sufficient; at each node it is exact.
- ExprAlgebra.AlgebraicKeeps: what is around a sum or product that loses its value may hide that, as a product with zero
  does; for the sum or product itself the condition is exact.
- In the scheduler: reuse of a freed instance's address, memory orders, thread priorities, logging, and changing a
  filter during a run. `history`, `miss` and `indulgence` only delay eviction: an arbitrary choice of frames to keep.
- A task of the maintainer is one step of the interleaving; ticks that are equal are ordered by instance instead of by
  address; the tick that a worker adds to a frame it gives up does not move it in a neck.
- In `Queue`: memory orders other than sequential consistency, the reuse of a freed node's address, and the shutdown
  path in which `consume_all` can swallow a stop request.
- `SpinLock`: each access to the heap of the priority queue is one step. `stopped` is not modelled.
- The float versions of the box blur, and the transposition for vertical blur.
- The order of cached steps compares a video description as 32 bytes, padding included, as `memcmp` does; an object
  that is of two kinds at once is not modelled.
- DuplicateFrames and DeleteFrames on clips of unknown length, and the other filters of VapStd/reorderfilters.c.
- VapourSynth API plumbing, Lua bindings, text, SVG and process code.
