# TechHub core, modelled and proved in Dafny

TechHub is a collection of small teaching tools. This project models the parts of it that
compute something, each in one Dafny module, and proves what their answers mean.

- **Logical evaluator** (`tools/logical_evaluator/`). The user writes a formula over letters with
  `!`, `*` (and), `+` (or), `^` (xor), `$` (implication) and `#` (equivalence).
  - `Logic` (logic.dfy) and `Nodes` (nodes.dfy) model the expression nodes and their `eval`.
    A node's constructor registers its bare-variable children with the symbol register.
  - `Registry` (registry.dfy) models that register: the variable objects, the dict from letter
    to positions (in insertion order) and the loader that binds a truth-table row to the
    variables.
  - `Algo` (algo.dfy) models the token-list helpers and the two lexers.
  - `Parser` and `ParserFacts` (parser.dfy) model `create_ast`, the token-list rewriter that
    folds parentheses, then `!`, `*`, `+`, `^`, `$` and `#` into a tree. Python's negative list
    indices and its error cases are kept.
  - `TruthTables` (truth_table.dfy) models the row objects, `generate` in counting order, and
    `simplify`, which hands the true rows to the two minimisers.
  - `Terms` (terms.dfy) models the term algebra of `sast3.py`: literals, products, sums, the
    constant classes, and the `*`, `+`, `==`, `copy` and `to_str` operators.
  - `Sast` (sast.dfy) models the first minimiser (`SAST.simplify`), proved to keep the meaning
    of the sum.
  - `Extended` (extended.dfy) models the second minimiser (`ExtendedSast2`). It is proved sound
    once two defects of the source are corrected (see Findings).
- **Subnet calculator** (`tools/ip_subnet/subcalc.py`), module `Subnet`.
  - The block search is a loop.
  - The network, broadcast, first and last addresses are proved to clear or set exactly the
    host bits.
  - The usable range is proved to hold `get_max_hosts()` addresses.
- **Binary search trees.**
  - `Bst` (bst.dfy) models `static/bst.js` on tree values.
  - `MmBst` (mm.dfy) models the imperative tree of `mm.py`: a class owning a node store,
    proved against the same tree functions.
- **Sorting visualiser** (`static/sorting.js`), module `Sorting`. The five algorithms work in
  place on an array with the `comparisons` and `swaps` counters. Each is proved to leave a
  sorted permutation.
- **Linux simulator** (`tools/LinuxSimulator/linux_simulator.py`), module `Linux`.
  - The file system is the dict from paths to contents, with its insertion order.
  - `run_command` is a method of the `Terminal` class. It is proved against the function
    `Run`, and lemmas state what each command does to the dict, the working directory and the
    `modified` flag.
  - The terminal takes a flag `fixed`: `false` runs the code as written, `true` the
    corrections of the Findings below.
- `PyStr` and `Types` (pystr.dfy) model the Python string and list built-ins the code relies on:
  `strip`, `split`, `join`, `replace`, `int`, `str` and `sorted`.

## Model

| member | source | states |
|---|---|---|
| Registry.Headers | tools/logical_evaluator/register.py:32-33 | the headers are the dict's keys, one per entry, in insertion order |
| Registry.KeyPos | tools/logical_evaluator/register.py:14 | `expr in self.expressions` holds exactly when the letter is among the headers, and a found position holds that letter |
| Registry.KeyPosUnique | tools/logical_evaluator/register.py:7 | with distinct keys, every letter sits at exactly one dict position |
| Registry.PutDistinct | tools/logical_evaluator/register.py:17 | a dict assignment keeps the keys distinct |
| Registry.AddConstantFacts | tools/logical_evaluator/register.py:13-18 | `add_constant_expr` appends the current `index_ptr` to the letter's list (a new list for a new letter, which goes last in the header order), leaves every other letter's list alone and adds exactly 1 to `index_ptr` |
| Registry.Register.AddConstantExpr | tools/logical_evaluator/register.py:13-18 | the method updates the register exactly as `AddConstant` says and keeps the keys distinct |
| Registry.EnrollAllAppend | tools/logical_evaluator/logic.py:25-31 | registering two runs of variables one after the other is registering their concatenation |
| Registry.EnrollKeeps | tools/logical_evaluator/logic.py:8-10 | one registration keeps `len(objs) == index_ptr`, distinct keys and valid listed positions, and keeps every object listed |
| Registry.EnrollLists | tools/logical_evaluator/logic.py:8-10 | after a registration every object, old or new, is listed under its own letter |
| Registry.EnrollAllKeeps | tools/logical_evaluator/register.py:13-18 | any sequence of registrations keeps the register invariant and the listing of every object |
| Registry.Symbols | tools/logical_evaluator/logic.py:10 | the letters a run of registrations passes to `add_constant_expr`, one per object |
| Registry.EnrollAllHeaders | tools/logical_evaluator/register.py:32-33 | `get_headers()` lists letters in first-registration order: registrations append only letters not seen before |
| Registry.Register.GetNoc | tools/logical_evaluator/register.py:10-11 | `get_noc()` is the number of distinct letters registered |
| Registry.DistinctCard | tools/logical_evaluator/register.py:10-11 | with distinct keys, the number of entries equals the number of distinct letters |
| Registry.Register.GetHeaders | tools/logical_evaluator/register.py:32-33 | `get_headers()` returns the keys in insertion order |
| Registry.Register.constructor | tools/logical_evaluator/register.py:5-8 | a new register holds the given objects, no keys and `index_ptr == 0` |
| Registry.Register.Reset | tools/logical_evaluator/register.py:35-38 | `reset()` leaves `objs` empty, no keys and `index_ptr == 0`, and the invariant holds |
| Registry.Letters | tools/logical_evaluator/register.py:42 | `[i for i in s if i.isalpha()]` keeps exactly the letters of `s` |
| Registry.InsertCharCount | tools/logical_evaluator/register.py:42 | inserting one character adds exactly that character to the list |
| Registry.InsertCharSorted | tools/logical_evaluator/register.py:42 | inserting before the first element not smaller keeps a list sorted |
| Registry.SortedLetters | tools/logical_evaluator/register.py:42 | `sorted(...)` is a sorted permutation of the letters of `s` |
| Registry.SeedKeysFacts | tools/logical_evaluator/register.py:43-44 | the `order` loop binds every listed letter to an empty list, keeps every other letter's list and appends only new letters to the header order |
| Registry.Register.Order | tools/logical_evaluator/register.py:40-44 | `order(s)` changes only the dict, seeding it with the sorted letters of `s` |
| Registry.OrderedHeaders | tools/logical_evaluator/register.py:40-44 | on a register without keys, `order(s)` makes the headers the distinct letters of `s` in strictly increasing code-point order |
| Registry.KnownLettersKeepHeaders | tools/logical_evaluator/register.py:14-15 | registering only letters that are already keys leaves the header order alone, so an `order`-seeded register keeps its alphabetical headers |
| Registry.SeedKeysKeeps | tools/logical_evaluator/register.py:43-44 | `order` keeps the register invariant |
| Registry.PutEmptyKeeps | tools/logical_evaluator/register.py:44 | resetting one letter's list to empty keeps the register invariant |
| Registry.Register.LoadValues | tools/logical_evaluator/register.py:20-30 | a vector of the wrong length raises ValueError and changes no value; otherwise every object listed under the k-th letter gets `ls[k]`, and no unlisted object changes |
| Registry.EarlierLetters | tools/logical_evaluator/register.py:27-30 | an object of the k-th letter is listed under no earlier letter, so a later column never overwrites it |
| Logic.ConstExpr.constructor | tools/logical_evaluator/logic.py:96-100 | a variable object holds its letter and its starting truth value |
| Logic.Eval | tools/logical_evaluator/logic.py:3-141 | `eval` of each node: `Not` negates its child (a stray operator string or None has no `eval` and fails); `And` and `Or` are conjunction and disjunction, stopping at a false (true) left child as Python's `and`/`or` do; `Xor` is true exactly when the children differ; `Implication` is `not l or r`; `Equivalence` is true exactly when both sides are equal; a variable returns the value it currently holds, and `true`/`false` always return True/False |
| Logic.EvalMeaning | tools/logical_evaluator/logic.py:12-158 | on an expression built only from variables, constants and nodes, `eval` never fails and returns the formula's textbook meaning once each variable holds its letter's value |
| Logic.EvalBound | tools/logical_evaluator/logic.py:102-103 | `eval` depends on the variable objects only through the values bound to their letters |
| Logic.EvalInMeaning | tools/logical_evaluator/logic.py:12-158 | evaluation under a letter assignment agrees with the textbook meaning on closed expressions |
| Nodes.Bare | tools/logical_evaluator/logic.py:8-10 | the children a constructor registers are exactly its direct variable children, in order |
| Nodes.BarePair | tools/logical_evaluator/logic.py:25-31 | a binary node registers its left child's variable before its right child's |
| Nodes.Enlist | tools/logical_evaluator/logic.py:25-27 | registering a bare variable child appends it to `objs` and lists it under its letter; any other child registers nothing |
| Nodes.NewNot | tools/logical_evaluator/logic.py:5-10 | `Not(e)` registers `e` only when it is a bare variable |
| Nodes.NewBinary | tools/logical_evaluator/logic.py:21-31 | the binary constructors register their bare-variable children left then right |
| Nodes.NewTree | tools/logical_evaluator/logic.py:149-164 | `AbstractSyntaxTree(e)` and `set_expr(e)` register `e` only when it is a bare variable |
| Nodes.ConstructionKeeps | tools/logical_evaluator/logic.py:25-31 | construction keeps `len(objs) == index_ptr` and distinct keys, keeps every object listed, and only appends to `objs` |
| Algo.PyGet | tools/logical_evaluator/algo.py:87-89 | `ls[k]` succeeds exactly for `-len <= k < len`, a negative index counting from the end |
| Algo.PyDel | tools/logical_evaluator/algo.py:23 | `del ls[k]` succeeds exactly for an index in range and removes that one element |
| Algo.PyInsert | tools/logical_evaluator/algo.py:25 | `ls.insert(k, v)` adds exactly `v`, at `k` when `k` is in range |
| Algo.Count | tools/logical_evaluator/algo.py:85 | `ls.count(c)` is zero exactly when no token is the string `c` |
| Algo.CountConcat | tools/logical_evaluator/algo.py:85 | counting a token over two joined lists adds the two counts |
| Algo.GetPrevIsLetter | tools/logical_evaluator/algo.py:4-8 | false at index 0; otherwise whether the previous character is a letter |
| Algo.BracesBelowFacts | tools/logical_evaluator/algo.py:12-16 | scanning from the right, the pair found is the first `'('` with a `')'` after it, and every `'('` passed over has none |
| Algo.FindBracesSpec | tools/logical_evaluator/algo.py:10-16 | a found pair is two positions inside the list, the opening one first |
| Algo.FindBracesMeaning | tools/logical_evaluator/algo.py:10-16 | `find_braces` returns the rightmost `'('` that has a `')'` after it, paired with the first such `')'`, so no parenthesis lies between them; it returns None exactly when no `'('` is followed by a `')'` |
| Algo.FindBraces | tools/logical_evaluator/algo.py:10-16 | the nested loops compute `FindBracesSpec` |
| Algo.DelRepeatSpan | tools/logical_evaluator/algo.py:22-23 | deleting n times at an in-range position removes the n elements from there on |
| Algo.ReplaceSpec | tools/logical_evaluator/algo.py:18-25 | `replace_with` leaves `len - (end - begin) + 1` elements, none new except `value` |
| Algo.ReplaceInRange | tools/logical_evaluator/algo.py:18-25 | in range, `replace_with` replaces positions `[begin, end)` by the single `value`: the prefix is kept and the suffix shifts |
| Algo.ReplaceAtMinusOne | tools/logical_evaluator/algo.py:18-25 | with `begin == -1` the deletions all hit the last element and the value lands in front of the new last element |
| Algo.ReplaceWith | tools/logical_evaluator/algo.py:18-25 | the deletion loop and the insertion compute `ReplaceSpec`, IndexError included |
| Algo.SingleReplace | tools/logical_evaluator/algo.py:27-30 | `pop` then `insert` at an in-range index overwrites that one position; an out-of-range index raises |
| Algo.SingleReplaceMinusOne | tools/logical_evaluator/algo.py:27-30 | at index -1 the last element goes, but the value lands in front of the new last element |
| Algo.LexPlainSpec | tools/logical_evaluator/algo.py:38-46 | one lexeme per character: a letter becomes a variable, `1`/`0` become `true()`/`false()`, anything else stays |
| Algo.LexAdjIsExplicit | tools/logical_evaluator/algo.py:59-74 | the adjacency lexer is the plain lexer on the input with a `*` written in front of every letter or `!` that directly follows a letter |
| Algo.AdjacentLetters | tools/logical_evaluator/algo.py:52-54 | `AB` lexes exactly as `A*B` |
| Algo.AdjacentNegation | tools/logical_evaluator/algo.py:69-72 | `A!B` lexes exactly as `A*!B` |
| Algo.NoAdjacency | tools/logical_evaluator/algo.py:61 | a letter after an operator gets no `*` |
| Algo.LexInput | tools/logical_evaluator/algo.py:32-48 | `lex_input` lexes the stripped input into fresh, distinct variables holding False |
| Algo.LexPlain | tools/logical_evaluator/algo.py:38-46 | the loop appends one token per character as `LexPlainSpec` says |
| Algo.LexAdjacent | tools/logical_evaluator/algo.py:50-76 | `lex_and_consider_adjacents` lexes the stripped input as `LexAdjSpec` says, into fresh, distinct variables holding False |
| Algo.LexAdjacentStripped | tools/logical_evaluator/algo.py:59-74 | the loop appends tokens as `LexAdjSpec` says |
| Parser.FoldAt | tools/logical_evaluator/algo.py:113-114 | building a binary node around position i and splicing it in shortens the list by two |
| Parser.ParenRound | tools/logical_evaluator/algo.py:88-91 | a parenthesis round that succeeds leaves a shorter list, which is why the `while` loop ends |
| Parser.ResolveParensRound | tools/logical_evaluator/algo.py:87-91 | while a `'('` is left, the loop runs one more round, stopping at the first error |
| Parser.CreateAstParens | tools/logical_evaluator/algo.py:82-183 | `create_ast` of a non-empty list resolves the parentheses first, then runs the operator stages on what is left |
| Parser.FinishStep | tools/logical_evaluator/algo.py:99-181 | the stages run in the order `! * + ^ $ #`, each on the list the previous one left, stopping at the first error |
| Parser.LeftFromAt | tools/logical_evaluator/algo.py:109-116 | one step of a left-to-right loop: a non-operator token is passed over, and after a fold the index stays put (`i -= 1; i += 1`) |
| Parser.RightFromAt | tools/logical_evaluator/algo.py:161-168 | one step of the `$` loop: after a fold the loop goes on from the index before, since `i += 1` does not affect a Python `for` |
| Parser.NotsLoop | tools/logical_evaluator/algo.py:100-104 | the `!` loop computes `Nots`, registering each bare operand as `Not` does |
| Parser.FoldStep | tools/logical_evaluator/algo.py:113-114 | one fold computes `FoldAt` and registers the node's bare children |
| Parser.LeftLoop | tools/logical_evaluator/algo.py:106-142 | the `*`, `+`, `^` and `#` loops compute `Lefts`, with their `len - 2*count` bound and the registrations of their folds |
| Parser.RightLoop | tools/logical_evaluator/algo.py:160-168 | the right-to-left `$` loop computes `Rights` with its registrations |
| Parser.StageLoop | tools/logical_evaluator/algo.py:99-181 | stage k runs the loop of its operator |
| Parser.FoldStages | tools/logical_evaluator/algo.py:99-183 | the stages then `tree.set_expr(tokens[0])` compute `FinishFrom(0, ...)` with its registrations |
| Parser.ParenRoundStep | tools/logical_evaluator/algo.py:88-91 | one parenthesis round, with its recursive `create_ast`, computes `ParenRound` |
| Parser.Splice | tools/logical_evaluator/algo.py:91 | replacing `tokens[l..r]`, parentheses included, by the inner result |
| Parser.CreateAst | tools/logical_evaluator/algo.py:78-185 | `create_ast` returns what `CreateAstSpec` says, errors included, and makes exactly its registrations in order |
| ParserFacts.CreateAstCovers | tools/logical_evaluator/algo.py:78-185 | every variable inside the tree is either a bare token of the input or was registered while building |
| ParserFacts.TreeVarsRegistered | tools/logical_evaluator/algo.py:78-185 | after `create_ast` on lexer output every variable of the tree is in `objs`, and the register invariant and every listing survive |
| ParserFacts.StageQuiet | tools/logical_evaluator/algo.py:101-181 | a stage whose operator does not occur leaves the list as it is |
| ParserFacts.CreateAstOf | tools/logical_evaluator/algo.py:183 | with no parentheses, the root is the first token left after the stages, whatever follows it |
| ParserFacts.ImplicationNestsRight | tools/logical_evaluator/algo.py:157-168 | `A$B$C` builds `A -> (B -> C)`, registering B and C before A |
| ParserFacts.ConjunctionNestsLeft | tools/logical_evaluator/algo.py:106-116 | `A*B*C` builds `(A*B)*C`, registering A, B and C in that order |
| ParserFacts.TrailingOperatorIgnored | tools/logical_evaluator/algo.py:107-109 | in `A*` the loop bound stops before the trailing `*`, and the root is A |
| ParserFacts.UnmatchedParenthesis | tools/logical_evaluator/algo.py:87-89 | `(A+B` makes `find_braces` return None, and indexing it raises TypeError |
| TruthTables.BitsStep | tools/logical_evaluator/truth_table.py:63-65 | the inner loop turns row i-1 into row i: column j flips exactly when `pow(2, n-j-1)` divides i |
| TruthTables.DigitStep | tools/logical_evaluator/truth_table.py:64-65 | counting from i-1 to i flips the digit of weight m exactly when m divides i |
| TruthTables.BitsZero | tools/logical_evaluator/truth_table.py:49 | row 0 is the all-false starting vector |
| TruthTables.ToNatBits | tools/logical_evaluator/truth_table.py:61-65 | row i is the n-bit binary of i, column 0 the most significant |
| TruthTables.BitsInjective | tools/logical_evaluator/truth_table.py:61 | the 2^n rows are all different |
| TruthTables.RowOfInjective | tools/logical_evaluator/truth_table.py:61-68 | rows counted on from the same start are equal only for the same count |
| TruthTables.ToNatFlip | tools/logical_evaluator/truth_table.py:20-23 | flipping column j moves the row's number down or up by `pow(2, n-j-1)` |
| TruthTables.GetIndexForTtFlips | tools/logical_evaluator/truth_table.py:18-23 | `get_index_for_tt(index, i)` is the number of the row that differs from row i in column `index` alone |
| TruthTables.TruthTableRow.constructor | tools/logical_evaluator/truth_table.py:12-16 | a row keeps its own copy of the vector, its value and its letters, with no column simplified |
| TruthTables.TruthTableRow.DeleteIndex | tools/logical_evaluator/truth_table.py:25-26 | `delete_index` only marks the column as simplified |
| TruthTables.TruthTableRow.Str | tools/logical_evaluator/truth_table.py:28-38 | `str()` joins with `*` the unsimplified columns, the letter where true and `!letter` where false |
| TruthTables.LitStrsInjective | tools/logical_evaluator/sast3.py:104-111 | equal renderings of single-letter literals are equal literals |
| TruthTables.StrParsesBack | tools/logical_evaluator/sast3.py:395-403 | `generateAnd(row.str())` gives back the product of the literals the row shows |
| TruthTables.TruthTable.constructor | tools/logical_evaluator/truth_table.py:43-54 | a table starts with the all-false vector, no rows, `data` holding one copy of the vector and no result |
| TruthTables.LoadedBound | tools/logical_evaluator/register.py:20-30 | after `load_values(ls)` every variable of a registered tree holds its letter's column |
| TruthTables.TruthTable.Record | tools/logical_evaluator/truth_table.py:58-59 | `load_values` then `eval`: ValueError when the vector does not fit the register, AttributeError when `eval` fails, otherwise one more row holding the vector, the headers and the tree's value on it |
| TruthTables.TruthTable.Advance | tools/logical_evaluator/truth_table.py:63-65 | the flip loop turns row i-1 into row i |
| TruthTables.TruthTable.Step | tools/logical_evaluator/truth_table.py:61-68 | one outer round counts the vector on and records the row, or stops with the error |
| TruthTables.RowsFromSnoc | tools/logical_evaluator/truth_table.py:68 | appending the next counted row keeps the rows counting from the start |
| TruthTables.BitAt | tools/logical_evaluator/truth_table.py:61-65 | column j of the vector of row i is binary digit `n-1-j` of i, column 0 the most significant |
| TruthTables.TruthTable.Generate | tools/logical_evaluator/truth_table.py:56-68 | `generate` appends rows counting on from the current vector, each holding the tree's value on it; it succeeds exactly when it adds 2^n rows; it fails with ValueError or AttributeError otherwise |
| TruthTables.RowsMeaning | tools/logical_evaluator/truth_table.py:58-68 | for an expression with no stray token, every row holds the textbook value of the expression on that row |
| TruthTables.Values | tools/logical_evaluator/truth_table.py:72-74 | `[i.value for i in rows]`, one value per row |
| TruthTables.Minterm | tools/logical_evaluator/truth_table.py:91-94 | one literal per header, in header order, negated exactly where the row is false |
| TruthTables.TruthTable.CollectMinterms | tools/logical_evaluator/truth_table.py:89-94 | the loop collects the product of each true row, in row order |
| TruthTables.MintermsMembers | tools/logical_evaluator/truth_table.py:89-94 | a product is collected exactly when it is the product of some true row |
| TruthTables.MintermHolds | tools/logical_evaluator/truth_table.py:93 | with the headers in the register's order, the product of row b holds on row c exactly when the rows are equal |
| TruthTables.MintermsMean | tools/logical_evaluator/truth_table.py:89-96 | on a full table, the sum of the collected products takes the table's value on every row |
| TruthTables.VerdictCases | tools/logical_evaluator/truth_table.py:78-87 | all true gives '1' and all false gives '0' whatever the number of variables; TooLongError is raised exactly when there are 7 or more headers and the function is not constant |
| TruthTables.TruthTable.Simplify | tools/logical_evaluator/truth_table.py:70-98 | `simplify` stores the row values as `truth_result`, leaves the rows alone and returns the verdict, setting `simplified_str` unless it raises |
| TruthTables.SastStageSound | tools/logical_evaluator/truth_table.py:96 | when pass 1 settles, its terms still take every row's value |
| Terms.Negate | tools/logical_evaluator/sast3.py:107-108 | `negotate()` keeps the letter and flips the polarity |
| Terms.NegationFacts | tools/logical_evaluator/sast3.py:104-108 | negation is an involution that never fixes a literal, and `is_negotated_of_this` holds exactly, and symmetrically, between a literal and its negation |
| Terms.LitStr | tools/logical_evaluator/sast3.py:110-111 | `to_str()` is the letter, with a leading `!` when negated, and parses back to the literal |
| Terms.Decode | tools/logical_evaluator/sast3.py:110-111 | a string is the rendering of at most one literal |
| Terms.LitStrs | tools/logical_evaluator/sast3.py:191-192 | the renderings of a product's literals, one per literal |
| Terms.Keep | tools/logical_evaluator/sast3.py:299-304 | `extract_same` keeps exactly the literals found in both products |
| Terms.Drop | tools/logical_evaluator/sast3.py:254-255 | the leftover filter keeps exactly the literals not in the common part |
| Terms.KeepDropSizes | tools/logical_evaluator/sast3.py:250-255 | the common part and the leftover of a product add up to the product |
| Terms.Different | tools/logical_evaluator/sast3.py:314-316 | `extract_different` holds exactly the literals in one product but not in both |
| Terms.DeleteFirst | tools/logical_evaluator/sast3.py:182-187 | `delete_item(c)` removes one occurrence of c when present and otherwise changes nothing |
| Terms.DeleteFirstMembers | tools/logical_evaluator/sast3.py:182-187 | deleting c leaves every other literal in place |
| Terms.CastIf | tools/logical_evaluator/sast3.py:230-234 | `is_castable()`/`cast()` turn a one-literal product into that literal without changing its meaning or size |
| Terms.MulSound | tools/logical_evaluator/sast3.py:31-96 | every product the `*` operators return means the conjunction of the operands: X·X = X, X·!X = 0 |
| Terms.MulLitSound | tools/logical_evaluator/sast3.py:75-96 | `CE * x` means the conjunction: a product holding X absorbs X, one holding !X gives 0 |
| Terms.PlusLit | tools/logical_evaluator/sast3.py:116-136 | `CE + x` never yields None, and a sum it returns has two flat terms |
| Terms.PlusLitSound | tools/logical_evaluator/sast3.py:116-136 | `CE + x` means the disjunction: X+X = X, X+!X = 1, A + A·B = A, A + !A·B = A + B |
| Terms.Combine | tools/logical_evaluator/sast3.py:144-149 | `OrExpr.combine(e)` multiplies each literal or product of the sum by the literals of e, keeping the count |
| Terms.CombineSound | tools/logical_evaluator/sast3.py:144-149 | the combined sum means the old sum times e |
| Terms.RefactorSound | tools/logical_evaluator/sast3.py:272-291 | multiplying the sum of the leftovers back by the common part means the common part times that sum |
| Terms.PlusProducts | tools/logical_evaluator/sast3.py:249-293 | `AndExpr + AndExpr` never yields None, and a sum it returns has two flat terms |
| Terms.PlusProductsSound | tools/logical_evaluator/sast3.py:249-293 | `AndExpr + AndExpr` means the disjunction: with nothing shared the plain sum, with one side used up the common part, and A·B + A·!B = A |
| Terms.Plus | tools/logical_evaluator/sast3.py:236-296 | the `+` operator never yields None, and a sum it returns has two flat terms |
| Terms.PlusSound | tools/logical_evaluator/sast3.py:116-296 | every result `+` returns means the disjunction of the operands |
| Terms.StarredSplits | tools/logical_evaluator/sast3.py:190-194 | stripping and splitting the loop output of `AndExpr.to_str` gives back the renderings |
| Terms.AndStrSorted | tools/logical_evaluator/sast3.py:189-195 | `AndExpr.to_str` joins the sorted renderings with `*` |
| Terms.LitStrsMultiset | tools/logical_evaluator/sast3.py:194 | two lists of renderings agree as multisets exactly when the literals do |
| Terms.AndStrOrderFree | tools/logical_evaluator/sast3.py:194 | the rendering of a product does not depend on the order of its literals |
| Terms.AndStrInjective | tools/logical_evaluator/sast3.py:189-195 | equal renderings of products over letters mean equal literal multisets |
| Terms.ParseLits | tools/logical_evaluator/sast3.py:398-402 | the `generateAnd` loop parses every piece or fails at a bad one |
| Terms.ParsePieces | tools/logical_evaluator/sast3.py:398-402 | renderings of literals over letters parse back into those literals |
| Terms.GenerateAndRoundTrip | tools/logical_evaluator/sast3.py:395-403 | `generateAnd(p.to_str())` rebuilds a product with the same literals, equal to p under `AndExpr.__eq__` |
| Terms.LiteralPlusOneGivesClass | tools/logical_evaluator/sast3.py:124-125 | `CE + true_obj()` returns the class `true_obj`, whose `to_str` and `copy` then fail for want of an instance |
| Terms.ProductPlusAbsorbedLiteralFails | tools/logical_evaluator/sast3.py:240-243 | `A + A·B` is A, but `A·B + A` raises, because the bare literal has no list to reverse |
| Terms.LiteralPlusNegationInProduct | tools/logical_evaluator/sast3.py:131-133 | A + !A·B deletes !A from the product and gives A + B |
| Terms.ComplementaryLeftoversCancel | tools/logical_evaluator/sast3.py:259-291 | A·B + A·!B gives A |
| Sast.PairStep | tools/logical_evaluator/sast3.py:355-376 | a pair that combines is replaced by one or two terms |
| SastFacts.PairStepSound | tools/logical_evaluator/sast3.py:355-376 | the terms replacing a combined pair mean the sum of the pair |
| Sast.ScanFrom | tools/logical_evaluator/sast3.py:352-376 | the inner loop keeps one flag per term |
| Sast.SweepFrom | tools/logical_evaluator/sast3.py:349-376 | the outer loop of a sweep keeps one flag per term |
| Sast.SweepAll | tools/logical_evaluator/sast3.py:344-376 | a sweep flags the terms it combined, one flag per term |
| Sast.Falses | tools/logical_evaluator/sast3.py:346 | `[False for i in range(n)]` has n entries, none true |
| Sast.Untouched | tools/logical_evaluator/sast3.py:381-384 | the terms a sweep left alone all come from the list |
| Sast.Scanning | tools/logical_evaluator/sast3.py:352-376 | the inner loop looks for a partner of term i among the later untouched terms and stops at the first pair that combines |
| Sast.Sweeping | tools/logical_evaluator/sast3.py:344-376 | one sweep computes `SweepAll` |
| Sast.Unchanged | tools/logical_evaluator/sast3.py:381-384 | the filter loop keeps the untouched terms in order |
| Sast.SettleStep | tools/logical_evaluator/sast3.py:378-386 | a sweep that combined something starts another round on `result_ls + filtered` |
| Sast.SettleDone | tools/logical_evaluator/sast3.py:378-379 | a sweep that combined nothing ends the loop with the list as it is |
| Sast.SweepRound | tools/logical_evaluator/sast3.py:341-386 | one round of the `while` loop either stops, raises or hands the next list to the remaining rounds |
| Sast.PlussedStep | tools/logical_evaluator/sast3.py:390-391 | the rendering loop adds each term's `to_str()` and a `+`, stopping at a term that cannot render |
| Sast.RenderOr | tools/logical_evaluator/sast3.py:389-393 | the output is the `+`-join of the renderings with the `+`s at both ends stripped |
| Sast.RenderSum | tools/logical_evaluator/sast3.py:389-393 | the rendering loop computes that output |
| Sast.SimplifyBy | tools/logical_evaluator/sast3.py:329-393 | past the constant cases, the output is the rendering of the settled list |
| Sast.Simplify | tools/logical_evaluator/sast3.py:329-393 | `SAST(ls).simplified`: `""` for no terms, `'1'`/`'0'` for a lone constant, otherwise the rendering of the list the loop settles on |
| SastFacts.SweepAccounted | tools/logical_evaluator/sast3.py:349-376 | within a sweep a term is combined at most once, combined terms come in pairs and the results mean exactly the combined terms |
| SastFacts.UntouchedCount | tools/logical_evaluator/sast3.py:381-384 | the untouched terms are as many as the unset flags |
| SastFacts.UntouchedFacts | tools/logical_evaluator/sast3.py:381-384 | the sum of the untouched terms holds exactly when one of the unflagged terms does |
| SastFacts.SweepSound | tools/logical_evaluator/sast3.py:341-386 | one sweep keeps the meaning of the list and never lengthens it; a sweep that changes anything combined at least two terms |
| SastFacts.SettleSound | tools/logical_evaluator/sast3.py:341-386 | the list the loop settles on means what its input means, is no longer, and one more sweep leaves it alone |
| Extended.GenerateAnd | tools/logical_evaluator/sast3.py:395-403 | the loop of `generateAnd` computes `GenerateAndSpec`, IndexError on an empty piece included |
| Extended.Products | tools/logical_evaluator/sast3.py:437 | `[generateAnd(i) for i in out]` gives one product per piece |
| Extended.GenerateAll | tools/logical_evaluator/sast3.py:437 | the comprehension computes `Products`, failing at the first bad piece |
| Extended.Casts | tools/logical_evaluator/sast3.py:438-440 | the cast loop turns each one-literal product into its literal and leaves the rest |
| Extended.CastAll | tools/logical_evaluator/sast3.py:438-440 | the loop computes `Casts` |
| Extended.ParseSumSpec | tools/logical_evaluator/sast3.py:435-440 | a parsed input is a non-empty list of literals and products |
| Extended.ParseSum | tools/logical_evaluator/sast3.py:435-440 | the first lines of `simplify` compute `ParseSumSpec` |
| Extended.MaxSize | tools/logical_evaluator/sast3.py:441 | `maxlen` bounds the size of every term |
| Extended.SizedStrsStep | tools/logical_evaluator/sast3.py:524-525 | filing one more term adds its rendering to the bucket of its size only |
| Extended.BucketStep | tools/logical_evaluator/sast3.py:524-525 | one round of the filing loop keeps every bucket equal to the renderings of the terms of its size so far |
| Extended.Lookup | tools/logical_evaluator/sast3.py:441-442 | the table has one bucket for each size from 0 to `maxlen` |
| Extended.ExtendedSast2.RegisterAll | tools/logical_evaluator/sast3.py:517-526 | `register_all(ls, maxlen)` maps each size 0..maxlen to the renderings of the terms of that size, in list order; a term larger than `maxlen` raises KeyError |
| Extended.ExtendedSast2.Register | tools/logical_evaluator/sast3.py:441-442 | `self.lookup` becomes the table of the list |
| ExtendedFacts.LookupMeaning | tools/logical_evaluator/sast3.py:517-526 | every term's size has a bucket, and a bucket holds a string exactly when some term of that size renders as it |
| ExtendedFacts.DifferentSplit | tools/logical_evaluator/sast3.py:314-316 | `extract_different` is the literals of p missing from q, then those of q missing from p |
| ExtendedFacts.GetSameMeaning | tools/logical_evaluator/sast3.py:410-418 | `get_same(p, q)` returns the common part exactly when it is non-empty, p has exactly one extra literal and q at least one |
| ExtendedFacts.SuitableCases | tools/logical_evaluator/sast3.py:420-423 | `is_suitable(q, same)` holds when q is `same` plus one literal, and also when q is `same` minus one literal |
| Extended.Visit | tools/logical_evaluator/sast3.py:466-483 | one partner j either extends the pattern or tries to start one, keeping one flag per term |
| Extended.ScanPartners | tools/logical_evaluator/sast3.py:459-483 | the j loop keeps one flag per term and a pattern whenever leftovers are cached |
| Extended.ScanStep | tools/logical_evaluator/sast3.py:459-483 | the scan from j is the scan from j+1 after visiting j, which only product pairs take part in |
| Extended.Partnered | tools/logical_evaluator/sast3.py:455-483 | the scan of all partners of term i starts with no pattern and keeps one flag per term |
| Extended.Partners | tools/logical_evaluator/sast3.py:455-483 | the j loop computes `Partnered` |
| Extended.NegatedChain | tools/logical_evaluator/sast3.py:405-408 | `get_negotated_chain(cache)` returns the number of leftovers and the rendering of their negated product |
| Extended.FlatMerged | tools/logical_evaluator/sast3.py:488-491 | the terms a merge keeps, and the common part it appends, are literals or products |
| Extended.MergeAt | tools/logical_evaluator/sast3.py:485-497 | a pass of the i loop keeps the list made of literals and products |
| Extended.ExtendedSast2.MergeStep | tools/logical_evaluator/sast3.py:455-497 | the body of the i loop computes `MergeAt` and keeps `self.lookup` the table of the current list |
| Extended.RoundFromStep | tools/logical_evaluator/sast3.py:449-497 | a round runs pass i, then goes on from i+1 on the list the pass left, stopping at an exception |
| Extended.RoundFromDone | tools/logical_evaluator/sast3.py:450-453 | the loop stops once i runs past the list, which `ls[i]` raising IndexError signals |
| Extended.Round | tools/logical_evaluator/sast3.py:449-497 | a round keeps the list made of literals and products |
| Extended.ExtendedSast2.RunRound | tools/logical_evaluator/sast3.py:449-497 | one round computes `Round` and keeps `self.lookup` up to date |
| Extended.RoundsFromNext | tools/logical_evaluator/sast3.py:447-511 | after round x the list is rendered, and the loop stops when the rendering equals the previous one (never in round 1) or after the 50th round |
| Extended.ExtendedSast2.RoundOf | tools/logical_evaluator/sast3.py:447-511 | round x runs, renders `str_out` and decides whether the loop stops |
| Extended.ExtendedSast2.RunRounds | tools/logical_evaluator/sast3.py:447-514 | the `for x in range(50)` loop and the final rendering compute `RoundsFrom` |
| Extended.ExtendedSast2.Simplify | tools/logical_evaluator/sast3.py:431-514 | `simplify(input)` computes `Es2Spec` |
| Extended.ExtendedSast2.constructor | tools/logical_evaluator/sast3.py:427-429 | `ExtendedSast2(input).simplified` is `Es2Spec(input)` |
| ExtendedFacts.MergedSound | tools/logical_evaluator/sast3.py:485-491 | with the corrected test, replacing the extracted terms by their pattern keeps the meaning, given a term that is the product of the negated leftovers |
| ExtendedFacts.MergeAtSound | tools/logical_evaluator/sast3.py:449-497 | one pass with the corrected test never fails and keeps the meaning of the list |
| ExtendedFacts.RoundFromSound | tools/logical_evaluator/sast3.py:449-497 | a round with the corrected test never fails and keeps the meaning |
| ExtendedFacts.RoundsFromSound | tools/logical_evaluator/sast3.py:447-511 | the rounds with the corrected test never fail and keep the meaning |
| ExtendedFacts.Es2Sound | tools/logical_evaluator/sast3.py:431-514 | with the corrected test, `ExtendedSast2` on parsable input never fails and returns the rendering of a list that means what its input means |
| ExtendedFacts.SubsetLoses | tools/logical_evaluator/sast3.py:420-423 | a merged list that fails where a term of the input holds does not mean the input |
| ExtendedFacts.IsSuitableAdmitsSubset | tools/logical_evaluator/sast3.py:420-423 | as written, the merge turns `A*B*C*D + A*B*C*E + A*B + !C*!D*!E` into `!C*!D*!E + A*B*C`, which changes the function |
| ExtendedFacts.LeftoversBeyondTable | tools/logical_evaluator/sast3.py:485-487 | as written, `A*D + A*E + A*F` looks three leftovers up in a table whose buckets stop at size 2, which raises KeyError |
| Bst.Insert | static/bst.js:16-21 | `insert` always returns a node, and the tree's values become the old ones plus the new value |
| BstFacts.InsertOrdered | static/bst.js:16-21 | `insert` keeps the search-tree order |
| BstFacts.InsertPresent | static/bst.js:18-20 | inserting a value already present leaves the tree as it was |
| Bst.FindMin | static/bst.js:23-26 | `findMin` follows left links to a node without a left child, which holds the leftmost value |
| Bst.DeleteNode | static/bst.js:28-42 | `deleteNode` never adds a value |
| BstFacts.DeleteAbsent | static/bst.js:28-42 | deleting an absent value leaves the tree as it was |
| BstFacts.DeleteOrdered | static/bst.js:28-42 | deleting removes exactly the value, the two-child case copying the successor's value, and keeps the search-tree order |
| Bst.Search | static/bst.js:44-53 | the `search` loop returns the spec's `found` and path of visited values |
| BstFacts.LookupFound | static/bst.js:44-53 | on a search tree, `search` finds the value exactly when it is present |
| BstFacts.LookupPath | static/bst.js:44-53 | the path starts at the root, holds only values of the tree, is no longer than the height plus one, and a found path ends with the value |
| Bst.Contains | static/bst.js:55-62 | `contains` agrees with `search(...).found` |
| Bst.InorderInto | static/bst.js:65 | `inorder(node, res)` returns `res` followed by the inorder listing |
| Bst.PreorderInto | static/bst.js:66 | `preorder(node, res)` returns `res` followed by the preorder listing |
| Bst.PostorderInto | static/bst.js:67 | `postorder(node, res)` returns `res` followed by the postorder listing |
| Bst.InorderValues | static/bst.js:65 | the inorder listing holds exactly the tree's values |
| BstFacts.InorderSorted | static/bst.js:65 | the inorder listing of a search tree is strictly increasing |
| BstFacts.TraversalsAgree | static/bst.js:65-67 | preorder and postorder list the same values as inorder, with the same multiplicities |
| Bst.Height | static/bst.js:70-73 | `height` is -1 exactly for the empty tree and never below |
| Bst.CountNodes | static/bst.js:75-78 | `countNodes` equals the length of the inorder listing |
| Bst.MinValue | static/bst.js:80 | the leftmost value is a value of the tree |
| BstFacts.MinValueLeast | static/bst.js:80 | on a search tree the leftmost value is the least |
| Bst.MaxValue | static/bst.js:81 | the rightmost value is a value of the tree |
| BstFacts.MaxValueGreatest | static/bst.js:81 | on a search tree the rightmost value is the greatest |
| Bst.FindMinVal | static/bst.js:80 | `findMinVal` is null exactly for an empty tree, otherwise the leftmost value |
| Bst.FindMaxVal | static/bst.js:81 | `findMaxVal` is null exactly for an empty tree, otherwise the rightmost value |
| Bst.NumberedJoin | static/bst.js:104-107 | numbering the left subtree, the node, then the right subtree numbers the whole inorder listing |
| Bst.ComputePositions | static/bst.js:102-109 | `computePositions(node, m, c)` returns `c + countNodes(node)`, gives every node of a search tree its inorder index counted from c, and keeps other entries |
| MmBst.BinarySearchTree.constructor | mm.py:26-27 | `BST()` starts empty |
| MmBst.InsertFound | mm.py:36-37 | meeting an equal value during the walk means the value is present and inserting it changes nothing |
| MmBst.InsertAt | mm.py:38-47 | hanging a new leaf where the walk falls off is inserting a value that was absent |
| MmBst.BinarySearchTree.Insert | mm.py:30-47 | `insert` returns True exactly when the value was absent and leaves the tree as inserting the value into it says, keeping its order |
| MmBst.Graft | mm.py:40-46 | changing one node changes the tree exactly at the place where the search for that node's value ends |
| MmBst.BinarySearchTree.Search | mm.py:50-61 | `search` returns the spec's `(found, path)`, and `found` holds exactly when the value is present |
| MmBst.Relink | mm.py:74-76 | relinking a child after the recursive call changes only that side of the node |
| MmBst.BinarySearchTree.DeleteRecursive | mm.py:68-92 | `_delete_recursive` returns the tree with the value deleted and whether it was present, changing only nodes of that subtree |
| MmBst.BinarySearchTree.DeleteBelow | mm.py:73-76 | a value below or above the node is deleted from that child's subtree and relinked |
| MmBst.BinarySearchTree.DeleteBySuccessor | mm.py:87-90 | a node with two children takes its inorder successor's value, which is then deleted from the right subtree |
| MmBst.BinarySearchTree.FindMinNode | mm.py:94-97 | `_find_min` returns a node of the subtree without a left child, holding its leftmost value |
| MmBst.BinarySearchTree.Delete | mm.py:64-66 | `delete` returns True exactly when the value was present; afterwards it is absent, all other values remain and the order holds |
| MmBst.BinarySearchTree.InorderFrom | mm.py:105-109 | `_inorder(node, result)` appends the inorder listing to `result` |
| MmBst.BinarySearchTree.Inorder | mm.py:100-103 | `inorder()` lists exactly the tree's values, strictly increasing |
| MmBst.BinarySearchTree.PreorderFrom | mm.py:116-120 | `_preorder(node, result)` appends the preorder listing |
| MmBst.BinarySearchTree.Preorder | mm.py:111-114 | `preorder()` lists the same values as `inorder()` |
| MmBst.BinarySearchTree.PostorderFrom | mm.py:127-131 | `_postorder(node, result)` appends the postorder listing |
| MmBst.BinarySearchTree.Postorder | mm.py:122-125 | `postorder()` lists the same values as `inorder()` |
| MmBst.BinarySearchTree.FindMin | mm.py:134-137 | `find_min()` is None exactly for an empty tree, otherwise the least value |
| MmBst.BinarySearchTree.FindMax | mm.py:139-145 | `find_max()` is None exactly for an empty tree, otherwise the greatest value |
| MmBst.BinarySearchTree.HeightFrom | mm.py:151-154 | `_height` is -1 exactly for None, and the height of the subtree otherwise |
| MmBst.BinarySearchTree.Height | mm.py:148-149 | `height()` is -1 exactly for an empty tree |
| MmBst.CountDistinct | mm.py:157-158 | in an ordered tree no value repeats, so the node count is the number of distinct values |
| MmBst.BinarySearchTree.Count | mm.py:157-158 | `count()` is the number of nodes, which is the number of values |
| Sorting.Visualizer.constructor | static/sorting.js:387-391 | a run starts from the given values with both counters at zero |
| Sorting.Visualizer.Swap | static/sorting.js:140-153 | `highlightSwap(i, j)` exchanges the two entries, changes nothing else and adds one to `swaps` |
| Sorting.Visualizer.IsSorted | static/sorting.js:417-422 | `isSorted()` is true exactly when the array is non-decreasing |
| Sorting.PairsClosed | static/sorting.js:167-168 | bubble and selection sort make n(n-1)/2 comparisons |
| Sorting.BubbleStep | static/sorting.js:167-180 | after outer round i of bubble sort the last i+1 places hold the largest values in order |
| Sorting.Visualizer.BubblePass | static/sorting.js:168-178 | the inner loop rearranges the unsorted front only and carries its largest value to place n-1-i, with one comparison per step |
| Sorting.Visualizer.BubbleSort | static/sorting.js:165-184 | `bubbleSort` leaves a sorted permutation of the input after (n-1) + ... + 1 comparisons |
| Sorting.Visualizer.MinIndex | static/sorting.js:191-208 | the inner loop of selection sort finds the first place of the least value of `[i, n)` |
| Sorting.SelectStep | static/sorting.js:209-211 | swapping the least value of `[i, n)` into place i extends the sorted head by one |
| Sorting.Visualizer.SelectionSort | static/sorting.js:187-219 | `selectionSort` leaves a sorted permutation after (n-1) + ... + 1 comparisons and at most n swaps |
| Sorting.InsertSwapStep | static/sorting.js:239-241 | moving the key one place left past a larger value keeps the insertion state |
| Sorting.InsertDone | static/sorting.js:242-243 | once the key is not below its left neighbour, the prefix `[0..i]` is sorted |
| Sorting.Visualizer.InsertStep | static/sorting.js:228-246 | the inner loop sorts the prefix `[0..i]` by swaps |
| Sorting.Visualizer.InsertionSort | static/sorting.js:222-251 | after round i the prefix `[0..i]` is sorted; at the end the array is a sorted permutation, after between n-1 and n(n-1)/2 comparisons |
| Sorting.Merged | static/sorting.js:280-315 | the merge of two runs has as many values as both together |
| Sorting.MergedPerm | static/sorting.js:276-315 | merging loses and invents no value |
| Sorting.MergedSorted | static/sorting.js:280-292 | merging two sorted runs gives a sorted run, starting with the smaller head, the left one on a tie |
| Sorting.Visualizer.MergeHeads | static/sorting.js:280-297 | the first loop writes the next values of the merge, one comparison per value and one `swaps` per value taken from the right run |
| Sorting.Visualizer.CopyRun | static/sorting.js:299-315 | the last two loops copy the rest of one run into the merge |
| Sorting.Visualizer.MergeRuns | static/sorting.js:270-320 | `merge(left, mid, right)` writes the merge of the copied runs over `[left..right]` and leaves the rest alone |
| Sorting.MergeLevel | static/sorting.js:262-267 | two sorted halves, each a rearrangement of its stretch, merged make a sorted rearrangement of `[left..right]` |
| Sorting.Visualizer.MergeSortHelper | static/sorting.js:262-268 | `mergeSortHelper(left, right)` sorts a rearrangement of `[left..right]` and leaves the rest alone |
| Sorting.Visualizer.MergeSort | static/sorting.js:254-260 | `mergeSort` leaves a sorted permutation |
| Sorting.Visualizer.PartitionScan | static/sorting.js:341-360 | the scan moves every value below the pivot to the front of the stretch, one swap each, and keeps the pivot at `high` |
| Sorting.Visualizer.Partition | static/sorting.js:340-376 | `partition` returns p in `[low, high]` with smaller values before it, `array[p]` the old `array[high]` and no smaller value after it |
| Sorting.SortedAround | static/sorting.js:331-338 | sorted values below the pivot, the pivot, then sorted values not below it are sorted |
| Sorting.QuickLevelSorted | static/sorting.js:331-338 | sorting the two sides of a partitioned stretch sorts the stretch |
| Sorting.Visualizer.QuickSortHelper | static/sorting.js:331-338 | `quickSortHelper(low, high)` sorts a rearrangement of `[low..high]` and leaves the rest alone |
| Sorting.Visualizer.QuickSort | static/sorting.js:323-329 | `quickSort` leaves a sorted permutation |
| Sorting.Visualizer.StartSorting | static/sorting.js:387-415 | `startSorting` resets the counters, runs the chosen algorithm and always ends on the completed branch, with a sorted permutation |
| Subnet.New | tools/ip_subnet/subcalc.py:3-13 | the constructor succeeds exactly when every dotted piece of the address reads as an integer; it then holds those octets, `nw_count = prefix // 8` and the block size of the octet where the prefix ends |
| Subnet.DotJoinIsJoin | tools/ip_subnet/subcalc.py:35-36 | the leading pieces are joined with dots as `".".join` does |
| Subnet.ParseAllStrs | tools/ip_subnet/subcalc.py:13 | reading back the strings of some integers gives the integers |
| Subnet.DottedOctets | tools/ip_subnet/subcalc.py:11-13 | `_ip_parcala` inverts writing an address with dots |
| Subnet.DottedFill | tools/ip_subnet/subcalc.py:35-38 | the leading octets, the block octet and the `'.0' * m` (or `'.255' * m`) tail together are a dotted address |
| Subnet.HostBitsIn | tools/ip_subnet/subcalc.py:8-9 | each octet holds between 0 and 8 host bits |
| Subnet.NetOctets | tools/ip_subnet/subcalc.py:29-38 | the intended network address has as many octets as the address |
| Subnet.BroadcastOctets | tools/ip_subnet/subcalc.py:40-50 | the intended broadcast address has as many octets as the address |
| Subnet.MaskOctets | tools/ip_subnet/subcalc.py:15-19 | the intended mask has four octets |
| Subnet.MaskValue | tools/ip_subnet/subcalc.py:15-19 | the corrected mask is the 32-bit number with `prefix` leading ones, and reads back as its four octets |
| Subnet.HostSpan | tools/ip_subnet/subcalc.py:21-27 | the host bits of all four octets together are worth `2 ** (32 - prefix) - 1` |
| Subnet.MaskAsWritten | tools/ip_subnet/subcalc.py:15-19 | `get_mask()` gives the corrected mask for prefixes 0 to 31, and at prefix 32 appends a fifth octet `.0` |
| Subnet.SubnetCalculator.GetMaxHosts | tools/ip_subnet/subcalc.py:25-27 | `get_max_hosts()` is an int of at least -1 exactly while the prefix is at most 32, odd plus 2 only for prefix 32; past 32 it is a float, given as an exact fraction above -2 and at most -1.5 |
| Subnet.MaxHostsPast32 | tools/ip_subnet/subcalc.py:25-27 | prefix 33 gives -1.5 and prefix 34 gives -1.75 |
| Subnet.SubnetCalculator.Octet | tools/ip_subnet/subcalc.py:32 | `self.oktetler[self.nw_count]` fails only with IndexError |
| Subnet.SubnetCalculator.BlockStart | tools/ip_subnet/subcalc.py:31-33 | the `while` loop stops at the first multiple of the block size whose block reaches the octet: a non-negative multiple k with `o <= k + x`, and `k <= o` for a non-negative octet |
| Subnet.SubnetCalculator.GetNetworkId | tools/ip_subnet/subcalc.py:29-38 | `get_network_id()` yields the network text (see `NetworkMeaning`) or the octet lookup's IndexError |
| Subnet.SubnetCalculator.GetBroadcast | tools/ip_subnet/subcalc.py:40-50 | `get_broadcast()` yields the broadcast text (see `BroadcastMeaning`) or the lookup's IndexError |
| Subnet.SubnetCalculator.GetFirstIp | tools/ip_subnet/subcalc.py:52-57 | `get_first_ip()` moves the last octet of the network address up by one (see `FirstIpMeaning`) |
| Subnet.SubnetCalculator.GetLastIp | tools/ip_subnet/subcalc.py:59-64 | `get_last_ip()` moves the last octet of the broadcast address down by one (see `LastIpMeaning`) |
| Subnet.SubnetCalculator.GetNetworkDetails | tools/ip_subnet/subcalc.py:77-84 | `get_network_details()` is the four answers in order, the first error winning |
| Subnet.BlockBits | tools/ip_subnet/subcalc.py:31-45 | the block the loop stops at is the octet with its host bits cleared, and `k + x` is the octet with them set |
| Subnet.HostBitsTotal | tools/ip_subnet/subcalc.py:21-23 | the host bits of the four octets add up to `get_host_bits()`, `32 - prefix` |
| Subnet.NetworkMeaning | tools/ip_subnet/subcalc.py:29-38 | for a four-octet address and a prefix up to 31, the network address is the address with every host bit cleared |
| Subnet.BroadcastMeaning | tools/ip_subnet/subcalc.py:40-50 | for a four-octet address and a prefix up to 31, the broadcast address is the address with every host bit set |
| Subnet.FirstIpMeaning | tools/ip_subnet/subcalc.py:52-57 | the first usable address is the network address plus one in its last octet |
| Subnet.LastIpMeaning | tools/ip_subnet/subcalc.py:59-64 | the last usable address is the broadcast address minus one in its last octet |
| Subnet.DetailsMeaning | tools/ip_subnet/subcalc.py:77-84 | the details are the network, broadcast, first and last addresses |
| Subnet.NumberSpan | tools/ip_subnet/subcalc.py:29-50 | the broadcast address lies exactly `2 ** (32 - prefix) - 1` above the network address |
| Subnet.MoveLast | tools/ip_subnet/subcalc.py:56 | moving the last octet keeps the first three |
| Subnet.UsableRange | tools/ip_subnet/subcalc.py:25-27 | the usable range from first to last address holds exactly `get_max_hosts()` addresses |
| Subnet.HostRouteRaises | tools/ip_subnet/subcalc.py:9 | at prefix 32 the calculator looks up a fifth octet, so the network address and the details raise IndexError |
| Linux.Lookup | tools/LinuxSimulator/linux_simulator.py:167-168 | `fs.get(p)` finds a value exactly when some entry has key `p`, and that entry holds it |
| Linux.DistinctIndex | tools/LinuxSimulator/linux_simulator.py:6-13 | dict keys are unique: no two entries share a path |
| Linux.LookupAt | tools/LinuxSimulator/linux_simulator.py:6-13 | with unique keys every entry is what its key looks up |
| Linux.Put | tools/LinuxSimulator/linux_simulator.py:112 | `fs[p] = v` makes `p` look up `v` and changes no other key; an existing key keeps its place, a new key goes last |
| Linux.Remove | tools/LinuxSimulator/linux_simulator.py:146 | `del fs[p]` removes exactly the key `p` and keeps the other entries |
| Linux.Without | tools/LinuxSimulator/linux_simulator.py:144 | the dict comprehension drops exactly the keys starting with the prefix |
| Linux.PutDistinct | tools/LinuxSimulator/linux_simulator.py:112 | assignment keeps the keys unique |
| Linux.RemoveDistinct | tools/LinuxSimulator/linux_simulator.py:146 | deletion keeps the keys unique |
| Linux.WithoutDistinct | tools/LinuxSimulator/linux_simulator.py:144 | the filtering comprehension keeps the keys unique |
| Linux.InitialDistinct | tools/LinuxSimulator/linux_simulator.py:6-13 | the initial dict has unique keys |
| Linux.Keys | tools/LinuxSimulator/linux_simulator.py:220 | `list(fs.keys())` lists the paths in dict order |
| Linux.DirPrefix | tools/LinuxSimulator/linux_simulator.py:92 | adding a missing trailing slash gives a path that ends with `/` and starts with the original |
| Linux.Parent | tools/LinuxSimulator/linux_simulator.py:32-38 | the `..` target is always absolute |
| Linux.FullPathAbsolute | tools/LinuxSimulator/linux_simulator.py:22-44 | `_get_full_path` resolves every target to an absolute path while the current path is absolute |
| Linux.ParentRoot | tools/LinuxSimulator/linux_simulator.py:35-38 | the parent of `/name` is `/` |
| Linux.ParentInner | tools/LinuxSimulator/linux_simulator.py:35-37 | the parent of `/a/name` is `/a` |
| Linux.ChildParent | tools/LinuxSimulator/linux_simulator.py:22-44 | resolving `..` from a child of a clean path gives the path back |
| Linux.HomeChild | tools/LinuxSimulator/linux_simulator.py:28-29 | a plain name resolves to the entry of that name in `/home/user/` |
| Linux.PlainName | tools/LinuxSimulator/linux_simulator.py:28-29 | a plain name resolves to itself inside the current directory |
| Linux.ChildPath | tools/LinuxSimulator/linux_simulator.py:28-29 | a plain name below a clean directory other than `/` resolves to `cwd/name` |
| Linux.NonBlankWords | tools/LinuxSimulator/linux_simulator.py:47-56 | a stripped non-blank line splits into at least one word, the command, followed by the arguments |
| Linux.HistoryLinesAt | tools/LinuxSimulator/linux_simulator.py:58-59 | `history` shows every recorded command in order, line i numbered i+1 |
| Linux.Numbered | tools/LinuxSimulator/linux_simulator.py:59 | the numbered list has one line per command |
| Linux.NumberedAt | tools/LinuxSimulator/linux_simulator.py:59 | line i shows number `first + i` and command i |
| Linux.LsNamesIff | tools/LinuxSimulator/linux_simulator.py:69-74 | `ls` collects exactly the names one level below the directory that are keys |
| Linux.LsNamesStep | tools/LinuxSimulator/linux_simulator.py:70-74 | one round of the `ls` loop appends what that key contributes |
| Linux.LsAnswers | tools/LinuxSimulator/linux_simulator.py:76-77 | with the correction `ls` always answers with text |
| Linux.LsRaisesAtRoot | tools/LinuxSimulator/linux_simulator.py:76-77 | as written, `ls` without an argument at `/` indexes an empty argument list and raises IndexError |
| Linux.LsMissing | tools/LinuxSimulator/linux_simulator.py:76 | when nothing is listed and neither form of the directory is a key, `ls` takes its error branch |
| Linux.TouchThenLs | tools/LinuxSimulator/linux_simulator.py:102-114 | after `touch name` in the current directory, `ls` lists `name` |
| Linux.CdIntoNew | tools/LinuxSimulator/linux_simulator.py:84-95 | `cd name` enters a directory just made under that name |
| Linux.CdBack | tools/LinuxSimulator/linux_simulator.py:84-95 | `cd ..` from `cwd/name` comes back to `cwd` |
| Linux.MkdirCdBack | tools/LinuxSimulator/linux_simulator.py:116-129 | `mkdir name`, `cd name`, `cd ..` ends where it began |
| Linux.Terminal.Cd | tools/LinuxSimulator/linux_simulator.py:84-100 | `cd` moves to the resolved directory when it is a key (or `/`), and otherwise reports the missing directory and stays |
| Linux.TouchKept | tools/LinuxSimulator/linux_simulator.py:102-114 | `touch` keeps the working directory and sets `modified` exactly when it answers the empty string; every change of the dict sets it |
| Linux.MkdirKept | tools/LinuxSimulator/linux_simulator.py:116-129 | the same for `mkdir` |
| Linux.RmKept | tools/LinuxSimulator/linux_simulator.py:131-159 | the same for `rm` |
| Linux.CpKept | tools/LinuxSimulator/linux_simulator.py:182-205 | the same for `cp` |
| Linux.MvKept | tools/LinuxSimulator/linux_simulator.py:207-228 | the same for `mv` |
| Linux.NanoKept | tools/LinuxSimulator/linux_simulator.py:276-303 | the same for `nano`, whose success reply is `Saved name` |
| Linux.WriteThenCat | tools/LinuxSimulator/linux_simulator.py:161-168 | what `touch` or `nano` writes under a name, `cat` of that name shows |
| Linux.RmDirDistinct | tools/LinuxSimulator/linux_simulator.py:144 | removing a directory keeps the keys unique |
| Linux.RmDropsChildren | tools/LinuxSimulator/linux_simulator.py:140-144 | as written, `rm docs/` without `-r` in `/home/user` removes `docs/notes.txt` as well |
| Linux.RmUnchecked | tools/LinuxSimulator/linux_simulator.py:140-144 | as written, the child test looks for a `/` after a key that already ends with one, so `rm` goes ahead and drops everything below |
| Linux.NoSlashChildren | tools/LinuxSimulator/linux_simulator.py:140 | as written, the child test finds nothing when no longer key has `/` right after the key |
| Linux.RmDirAlone | tools/LinuxSimulator/linux_simulator.py:140-142 | corrected, `rm` without `-r` removes only an empty directory's key |
| Linux.RmDirRecursive | tools/LinuxSimulator/linux_simulator.py:141-144 | corrected, `rm -r` removes the directory and everything below it and keeps the rest |
| Linux.Terminal.Rm | tools/LinuxSimulator/linux_simulator.py:131-159 | `rm` answers and changes the dict as `RmOutcome` says, keeps the keys unique and records a change in `modified` |
| Linux.RenameAgrees | tools/LinuxSimulator/linux_simulator.py:199 | when `src` does not occur again after the leading one, the `replace` of the source and the prefix rename agree |
| Linux.RenameRewritesInner | tools/LinuxSimulator/linux_simulator.py:222 | as written, moving `/a/` to `/b/` renames `/a/x/a/` to `/b/x/b/` instead of `/b/x/a/` |
| Linux.RenameInjective | tools/LinuxSimulator/linux_simulator.py:199 | corrected, different keys below `src` get different new keys |
| Linux.RenameLeaves | tools/LinuxSimulator/linux_simulator.py:222 | corrected, with neither directory inside the other, a renamed key is no longer below `src` |
| Linux.CopyKeeps | tools/LinuxSimulator/linux_simulator.py:197-200 | `cp -r` never drops a key |
| Linux.CopyOutside | tools/LinuxSimulator/linux_simulator.py:197-200 | a key no copied entry is renamed to keeps its value |
| Linux.CopyTarget | tools/LinuxSimulator/linux_simulator.py:195-200 | corrected, every entry below `src` ends up under `dst` plus its relative path, with its value |
| Linux.CopyKeepsSource | tools/LinuxSimulator/linux_simulator.py:197-200 | corrected and with the directories apart, `cp -r` leaves the source tree as it was |
| Linux.Terminal.CopyTree | tools/LinuxSimulator/linux_simulator.py:197-200 | the `cp -r` loop over the snapshot of the items leaves the dict the copy specification gives, with unique keys |
| Linux.Terminal.Cp | tools/LinuxSimulator/linux_simulator.py:182-205 | `cp` answers and changes the dict as `CpOutcome` says, keeps the keys unique and records a change in `modified` |
| Linux.MoveOutside | tools/LinuxSimulator/linux_simulator.py:220-223 | a key outside `src` that no moved key is renamed to keeps its value |
| Linux.MoveEmptiesSource | tools/LinuxSimulator/linux_simulator.py:220-223 | corrected and with the directories apart, every moved key is gone from `src` |
| Linux.MoveStepKeeps | tools/LinuxSimulator/linux_simulator.py:223 | one `pop` and store leaves the other keys below `src` alone |
| Linux.MoveTargetFirst | tools/LinuxSimulator/linux_simulator.py:220-223 | the first moved key lands under its new name with its value |
| Linux.MoveTarget | tools/LinuxSimulator/linux_simulator.py:216-223 | corrected and with the directories apart, each key below `src` ends up under `dst` plus its relative path, with its value |
| Linux.Terminal.MoveTree | tools/LinuxSimulator/linux_simulator.py:220-223 | the `mv` loop over the snapshot of the keys leaves the dict the move specification gives, with unique keys |
| Linux.Terminal.MoveKey | tools/LinuxSimulator/linux_simulator.py:225 | `fs[dst] = fs.pop(src)` removes `src` and stores its value under `dst` |
| Linux.Terminal.Mv | tools/LinuxSimulator/linux_simulator.py:207-228 | `mv` answers and changes the dict as `MvOutcome` says, keeps the keys unique and records a change in `modified` |
| Linux.Terminal.Touch | tools/LinuxSimulator/linux_simulator.py:102-114 | `touch` answers and changes the dict as `TouchOutcome` says, keeps the keys unique and records a change in `modified` |
| Linux.Terminal.Mkdir | tools/LinuxSimulator/linux_simulator.py:116-129 | `mkdir` answers and changes the dict as `MkdirOutcome` says, keeps the keys unique and records a change in `modified` |
| Linux.Terminal.Nano | tools/LinuxSimulator/linux_simulator.py:276-303 | `nano` answers and changes the dict as `NanoOutcome` says, keeps the keys unique and records a change in `modified` |
| Linux.FirstIndex | tools/LinuxSimulator/linux_simulator.py:236 | `arguments.index("-name")` is the first position of `-name` |
| Linux.NameFilter | tools/LinuxSimulator/linux_simulator.py:234-238 | a name filter exists only when `-name` is among the arguments |
| Linux.FindNamesIff | tools/LinuxSimulator/linux_simulator.py:240-246 | `find` collects exactly the keys at or below its path whose last component passes the filter |
| Linux.FindNamesStep | tools/LinuxSimulator/linux_simulator.py:242-246 | one round of the `find` loop appends the key when it passes |
| Linux.Terminal.Find | tools/LinuxSimulator/linux_simulator.py:230-248 | `find` answers the sorted keys its loop collects, one per line |
| Linux.Terminal.Ls | tools/LinuxSimulator/linux_simulator.py:61-79 | `ls` answers the names its loop collects, sorted, or the error of the missing directory |
| Linux.ParseName | tools/LinuxSimulator/linux_simulator.py:58-319 | the `if`/`elif` chain keeps the word, and a word takes a named branch exactly when the shell handles it |
| Linux.ParseMan | tools/LinuxSimulator/linux_simulator.py:250 | only the word `man` takes the `man` branch |
| Linux.NamedMan | tools/LinuxSimulator/linux_simulator.py:250 | only the `man` branch is named "man" |
| Linux.ManualCoverage | tools/LinuxSimulator/linux_simulator.py:253-274 | the manual pages cover every command the shell handles except `man`, and no other word |
| Linux.OfferedCoverage | tools/LinuxSimulator/linux_simulator.py:317-319 | the unknown-command message offers every handled command except `cd` |
| Linux.OfferedHas | tools/LinuxSimulator/linux_simulator.py:318 | each handled command other than `cd` is in the offered list |
| Linux.RunAnswers | tools/LinuxSimulator/linux_simulator.py:58-319 | the commands that only read (`history`, `pwd`, `cat`, `whoami`, `uname`, `man`, `echo`, `date`, `clear`, `exit`, unknown words) answer as `Answer` says and change nothing |
| Linux.RunFrame | tools/LinuxSimulator/linux_simulator.py:58-319 | only `cd` moves the working directory, only the writing commands set `modified`, and every change of the dict sets it |
| Linux.WroteOnSuccess | tools/LinuxSimulator/linux_simulator.py:102-303 | a writing command sets `modified` exactly when it succeeds: the empty reply, or `Saved name` for `nano` |
| Linux.Terminal.Look | tools/LinuxSimulator/linux_simulator.py:58-100 | a command that does not write answers as `Run` says and changes no key |
| Linux.Terminal.Write | tools/LinuxSimulator/linux_simulator.py:102-303 | a writing command answers and changes the dict as `Run` says and records any write in `modified` |
| Linux.Terminal.Dispatch | tools/LinuxSimulator/linux_simulator.py:58-319 | the dispatch of a command answers, changes the dict and the working directory as `Run` says, and keeps the keys unique |
| Linux.Terminal.Execute | tools/LinuxSimulator/linux_simulator.py:54-319 | the dispatch of a recorded line runs its first word with the rest as arguments |
| Linux.Terminal.RunCommand | tools/LinuxSimulator/linux_simulator.py:46-319 | `run_command` on a blank line answers nothing and changes nothing; any other line is appended to the history, becomes the last command and runs as `Run` says, keeping the keys unique |
| Linux.Terminal.constructor | tools/LinuxSimulator/linux_simulator.py:4-20 | a new terminal starts in `/home/user` with the six initial entries, no history, no last command and `modified` false |
| PyStr.LStrip | tools/LinuxSimulator/linux_simulator.py:35 | `lstrip` drops only characters of the set, and what it leaves starts with a character outside it |
| PyStr.RStrip | tools/LinuxSimulator/linux_simulator.py:76 | `rstrip` drops only characters of the set, and what it leaves ends with a character outside it |
| PyStr.LStripSuffix | tools/LinuxSimulator/linux_simulator.py:35 | what `lstrip` leaves is a suffix of the string |
| PyStr.RStripPrefix | tools/LinuxSimulator/linux_simulator.py:94 | what `rstrip` leaves is a prefix of the string |
| PyStr.Strip | tools/logical_evaluator/algo.py:34 | `strip` leaves a string that neither starts nor ends with a stripped character, and is empty exactly when every character is stripped |
| PyStr.Join | tools/LinuxSimulator/linux_simulator.py:37 | joining one piece gives the piece |
| PyStr.IndexOf | tools/ip_subnet/subcalc.py:13 | `split` cuts at the first occurrence of the separator: the index found holds it and nothing before it does |
| PyStr.SplitOn | tools/ip_subnet/subcalc.py:13 | `split(sep)` gives at least one piece, no piece holds the separator, and joining the pieces gives the string back |
| PyStr.SplitJoin | tools/ip_subnet/subcalc.py:55-57 | splitting a join of separator-free pieces gives the pieces back |
| PyStr.WordLength | tools/LinuxSimulator/linux_simulator.py:54 | the first word of `split()` ends at white space or at the end of the string |
| PyStr.SplitWords | tools/LinuxSimulator/linux_simulator.py:54 | every piece `split()` yields is a non-empty run without white space |
| PyStr.Replace | tools/LinuxSimulator/linux_simulator.py:199 | `replace` substitutes an occurrence at the front and goes on after it |
| PyStr.ReplaceAbsent | tools/LinuxSimulator/linux_simulator.py:222 | `replace` leaves a string without the pattern unchanged |
| PyStr.CountChar | tools/LinuxSimulator/linux_simulator.py:73 | `count(c)` is at most the length and is zero exactly when `c` does not occur |
| PyStr.NatToStr | tools/ip_subnet/subcalc.py:38 | `str` of a natural number is a non-empty run of digits with no leading zero |
| PyStr.IntToStr | tools/ip_subnet/subcalc.py:56 | `str` of an int is never empty |
| PyStr.ParseIntToStr | tools/ip_subnet/subcalc.py:56 | `int(str(n)) == n` for every int, negative ones included |
| PyStr.Pow2 | tools/ip_subnet/subcalc.py:27 | `2 ** k` is at least 1 |
| PyStr.DivModUnique | tools/ip_subnet/subcalc.py:8-9 | a quotient and remainder in range are the ones `//` and `%` give |
| PyStr.StrLessIrreflexive | tools/LinuxSimulator/linux_simulator.py:79 | no string is below itself in Python's string order |
| PyStr.StrLessTotal | tools/LinuxSimulator/linux_simulator.py:79 | any two different strings are ordered one way or the other |
| PyStr.StrLessAsymmetric | tools/LinuxSimulator/linux_simulator.py:79 | no two strings are each below the other |
| PyStr.StrLessTransitive | tools/LinuxSimulator/linux_simulator.py:79 | the string order is transitive |
| PyStr.InsertSorted | tools/LinuxSimulator/linux_simulator.py:79 | inserting adds exactly the one element |
| PyStr.SortStrs | tools/LinuxSimulator/linux_simulator.py:248 | `sorted` is a permutation of its input |
| PyStr.SortStrsSorted | tools/LinuxSimulator/linux_simulator.py:248 | `sorted` returns a list in ascending order |
| PyStr.SortedUnique | tools/LinuxSimulator/linux_simulator.py:79 | two sorted lists of the same elements are equal |
| PyStr.SortStrsPermutationInvariant | tools/LinuxSimulator/linux_simulator.py:79 | what `sorted` returns depends only on which elements the list holds, not on their order |

## Left out

- Printing, `input()`, the menus of `main.py` and `mm.py`, the command-line loops and the
  Flask views: they only move text between the user and the modelled functions.
- `print_table` (truth_table.py:100-121) formats rows for the screen; only the row strings
  (`TruthTables.TruthTableRow.Str`) are modelled.
- The drawing, colours, delays and `await` pauses of `static/sorting.js` and `static/bst.js`
  (canvas layout, `computePositions` coordinates, animation): they do not affect the data.
- Sorting.Visualizer.StartSorting: the `running` guard (sorting.js:388-389) is not modelled.
  Neither is the stop button that ends a run early (the "Dayandırıldı" branch). The model is
  a run that is never interrupted, so the final `isSorted()` always reports completion.
- Bst.Insert and Bst.DeleteNode: the in-place updates of `static/bst.js` are modelled as
  rebuilding a tree value. Node identity and aliasing are not modelled, and no other reference
  to a node exists in the source.
- PyStr.IsAlpha: only ASCII letters count. Python's `isalpha`, used by the lexer
  (algo.py:7, 39, 60), also accepts other Unicode letters such as `é`.
- PyStr.ParseInt: accepts an optional sign and ASCII digits between white space. It rejects
  what `int()` also accepts: digit-group underscores (`"1_0"`) and non-ASCII decimal digits.
  These reach the model only through a typed address in subcalc.py:13, 56 and 63.
- Sast.Settle: `SAST.simplify` (sast3.py:341-387) loops until a sweep changes nothing. The
  model allows at most `fuel` sweeps (`SastSweeps`, 1000, in the truth table) and reports
  `Unfinished` beyond that. No bound on the number of sweeps is proved.
- TruthTables.SastStageSound: holds only when the first minimiser finishes within the fuel
  (`Settle(...).Ok?`).
- Linux.Answer: `date` answers the marker `Now` instead of the clock reading
  (linux_simulator.py:309).
- Linux.Terminal.constructor: `change_dict["session_start"]` (linux_simulator.py:18) holds a
  clock reading and is not modelled.
- Linux.Terminal.Nano: `nano file` returns the editor dict of linux_simulator.py:288-293 as
  the reply `NanoEdit(filename, full_path, content)`. The editor session that follows lives
  in the web front end and is not modelled.
- Subnet.SubnetCalculator.GetMaxHosts: a prefix above 32 makes Python's `2 ** (32 - prefix)`
  a float. The model gives that float as the exact fraction `num / den` and ignores binary
  rounding. Up to prefix 84 the fraction is exactly the double Python computes. From prefix
  85 = 32 + 53 on, the double rounds to -2.0, while the model's fraction stays above -2.
- The source keeps one process-wide register (`reg_global`, register.py:48). Here it is a
  `Registry.Register` object passed to the code that uses it.

## Findings

| source | as written | input that shows it | evidently intended | confidence | as-written member | corrected member |
|---|---|---|---|---|---|---|
| tools/LinuxSimulator/linux_simulator.py:76-77 | when nothing is listed and the directory is not a key, the error message formats `arguments[0]` even when `ls` had no argument | `cd /` then `ls`: no key lies one level below `/` and neither `/` nor the empty string is a key, so `arguments[0]` raises IndexError | report the directory that cannot be listed | not executed | Linux.LsRaisesAtRoot | Linux.LsAnswers |
| tools/LinuxSimulator/linux_simulator.py:199, 222 | `cp -r` and `mv` compute the new key with `p.replace(src, dst)`, which rewrites every occurrence of `src`, not just the leading one | `mkdir /a`, `mkdir /a/x`, `mkdir /a/x/a`, `mv /a /b` gives the key `/b/x/b/` | replace only the leading `src` | not executed | Linux.RenameRewritesInner | Linux.CopyTarget, Linux.MoveTarget |
| tools/LinuxSimulator/linux_simulator.py:140 | the child test looks for `full_path + "/"`, but a directory key already ends with `/`, so it looks for `//` and finds nothing | in `/home/user`, `rm docs/` without `-r` removes `/home/user/docs/notes.txt` as well | refuse a directory that has children unless `-r` is given | not executed | Linux.RmDropsChildren | Linux.RmDirAlone, Linux.RmDirRecursive |
| tools/logical_evaluator/sast3.py:420-423 | `is_suitable` asks only that a product differ from the shared part in one literal, not that it contain the shared part | `A*B*C*D + A*B*C*E + A*B + !C*!D*!E` merges into `!C*!D*!E + A*B*C`, which is false at A=B=D=1, C=E=0 where the input is true | a product qualifies only when it is the shared part plus one literal | not executed | ExtendedFacts.IsSuitableAdmitsSubset | ExtendedFacts.Es2Sound |
| tools/logical_evaluator/sast3.py:485-487 | `self.lookup[size]` is indexed with the number of leftovers even when no product of that size exists | `A*D + A*E + A*F`: three leftovers, but the table holds only size 2, so KeyError | treat a missing size as "not found" | not executed | ExtendedFacts.LeftoversBeyondTable | ExtendedFacts.Es2Sound |
| tools/ip_subnet/subcalc.py:18-19 | `'.0' * (4 - e // 8 - 1)` is empty at prefix 32, but the octet `str(0)` is still written | prefix 32 gives the mask `255.255.255.255.0` | the mask `255.255.255.255` | not executed | Subnet.MaskAsWritten | Subnet.MaskValue |
