# Verification of libecoli

libecoli parses and completes command lines against a grammar given as a graph
of nodes. This project models its algorithmic core and proves what that core is
for. `dafny verify dfyconfig.toml` checks everything.

| files | what they model |
|---|---|
| `ExprGrammar`, `ExprBuild`, `ExprCombinators`, `ExprUnique`, `ExprErrors` | the expression node: operator tables, the cyclic layered grammar built from them, the parser that the combinators run on it, why these combinators are those of the parser, why no other parser solves that grammar, and what becomes of errors that nodes of the user report |
| `ExprEval`, `ExprEvaluator`, `ExprFree` | the evaluator that folds a parse tree with user callbacks, the denotation it computes, the calls of callbacks it makes, and the account of the user's values |
| `ExprTables`, `ExprClashes`, `ExprHidden` | nodes registered in several operator tables, which of them break the evaluator's assertions, and which are never tried |
| `ExprRoundTrip`, `ExprLanguage`, `ExprAlphabet`, `ExprGuard`, `ExprWitness` | printing expressions, the exact language of the grammar, the round trip, when the evaluator's assertion is reached, and words that reach it |
| `Grammar`, `Parser`, `GrammarFacts`, `GrammarMeaning`, `OnceFacts`, `OnceTwice`, `SubsetOrders`, `SubsetTree`, `PnodeIter` | str, any, empty, seq, or, many, option, bypass, once and subset nodes, the parse state they extend and roll back, what each node matches told without loops, which order a subset settles on, when a once node keeps its promise, what a subset leaves in the tree, and the iterator over parse trees |
| `Completion`, `Completer`, `Offers`, `OnceOffers`, `Interact` | completion of the same nodes, with the parse state and tables they change and restore, exactly what is offered, and the text all offers share |
| `CmdCompile`, `CmdMatch`, `CmdOperators` | the command node: callbacks that compile an expression to grammar nodes, and what the result matches |
| `ShellLex`, `ShellSpans`, `ShellSpelling`, `ShellComments`, `ShellTrailing`, `ShellQuote`, `ShellRoundTrip`, `ShellQuoteKinds`, `ShellAnyQuote` | the shell lexer with its token buffer and spans, what the spans spell, what comments hide and when blanks make a word, the two-pass quoter, and their round trips |
| `StrWrap`, `WrapLines` | the word wrapper with its growing buffer, and the rows it prints |
| `RefCount`, `HashSpec`, `HashTable`, `StrVec` | containers that share reference-counted elements: the resizing hash table and the string vectors |
| `References`, `Marking`, `FreePaths`, `FreeMarks`, `FreeExamples`, `RebuiltGraph`, `RebuiltExample` | counting in-references over a cyclic node graph, marking what can be freed and when that ends, clearing the marks, and the graph that a rebuilt expression frees |

Imperative code is modelled by classes and methods with loops, each proved
against a function on values; the properties of those functions are lemmas.

Results that differ from what one might expect of the code, each with an input
and its condition, which is exact but for the last two:

* The evaluator reaches its final assertion (src/node_expr.c:528) exactly when
  two postfix operators follow one operand, although the grammar accepts such
  input, when no node is registered where it does harm in a second table. The
  condition is proved both on parse trees and on the input words; `a ^ ^`
  reaches it.
* Nothing forbids registering one node in two tables, and the evaluator takes it
  for what the first of them says (src/node_expr.c:441-476). With `-` both binary
  and prefix operator, `- a` ends with an operator left, against the assertion at
  src/node_expr.c:623, and `- - a` reaches the one at line 528 with no postfix
  operator. For nodes that match words, every parsed input without two operators
  after an operand meets all the assertions exactly when the value node is not
  among the binary or postfix operators, no binary operator is among the prefix
  ones, and in every pair of parentheses that can be parsed at all the opening
  node is no binary or postfix operator and the closing node is not the value
  node. A parenthesis that is also an operator, where this does no harm, is
  evaluated as that operator.
* Chains group as `t0 op1 ((t1 op2 t2) ... opn tn)`, not as a left fold. With
  callbacks that succeed, the two agree on every chain exactly when the
  operators are associative on the values of expressions; chains of one
  operator always agree, and two subtractions do not.
* A word quoted automatically (quote 0) is single-quoted when it has a double
  quote, and the lexer does not read escapes back between single quotes, so
  such a word survives only without single quotes and backslashes. A word that
  needs no quote is copied as it is and then survives only without backslashes
  and without a leading pound sign. Any other quote character loses every word,
  except that the lexer, when not strict, reads back some words quoted with
  backslashes.
* An empty quoted word reads back as the text that the token buffer held before
  (src/strvec.c:396), so a list survives whatever the buffer held exactly when
  no word is empty, too long, or holds control characters other than newline.
  An empty word alone is lost, one between two words repeats the first.
* The missing quote reported is the one the unfinished word begins with. It is
  the one that is open exactly when the word begins with the open quote, or
  begins with no quote while none is open; after `a"b` it is not reported.
* The comment at src/node_seq.c:85-94 announces a completion of the next node
  with an empty vector when the first node takes all words; the loop at line 103
  stops before that case, and the model follows the loop. Completing any node
  with an empty vector adds no item, so no item is lost.
* A choice is extended at its end, and groups from the right (src/node_cmd.c:183-201),
  so from three operands on that are no choices themselves, the one written first
  is tried last: in `x | any | y` the word `x` is taken by `any`.
* `+` on an operand that matches without taking a word does not match, because
  an empty match ends the repetition before it is counted (src/node_many.c:61);
  an empty node under `+` is refused.
* A subset unlinks only the last child of an order it discards
  (src/node_subset.c:91-101). It leaves as many children under its pnode as the
  order chosen has nodes exactly when, at every point of the search, at most one
  of the nodes that match can be followed by another; two any nodes on two words
  leave three children.
* Rebuilding an expression (src/node_expr.c:104) runs into the assertion on the
  counts (src/node.c:189) exactly when the expression node can be reached from
  the nodes it was built of, as it can when the value node contains the
  expression: the reference that is dropped is then counted twice, for the
  caller and for the expression node that still lists it.
* Marking what can be freed (src/node.c:178-198) does not end on every graph: a
  node that two of its children lead back to is marked freeable again each time
  it was marked not freeable through the first of them. It ends exactly when it
  does within as many nested calls as there are different ones. That is so when
  no node is both on a cycle of nodes that could be freed and on a cycle through
  a node referenced from elsewhere, as in the graph that a rebuilt expression
  frees when its registered nodes are held by its tables. Of the graphs beyond
  that some never end, some end with one order of the children and not with the
  other, and some with either.
* A once node below a subset can match twice: the subset takes the best order
  out of the tree while it tries others, and leaves nodes of these behind
  (src/node_subset.c:91-112). For a subset of two entries of which the second is
  a once node, this happens exactly when each can follow the other; any word
  and once any word, on two words, do. It never happens when the once node's
  child is below no subset, or only below subsets in which no two entries can
  each be followed by another, as when no input is matched by two entries.
* The comment at src/node.c:235-236 says that what an unfreeable node reaches is
  unfreeable. That holds when nothing is reached both with and without passing
  an unfreeable node. Otherwise a later visit can make such a node freeable
  again: a node that is held elsewhere and uses another one that the root uses
  as well leaves that one freeable when it is visited first, and not when it is
  last.

## Model

| member | source | states |
|---|---|---|
| ExprGrammar.Parse | src/node_expr.c:41-55 | for nodes of the user that report no error (ExprErrors.ErrorIffTried for others): a parse of the built node stops (measure: words left, then layer), its words are a prefix of the input, it takes at least one word when the value node does, and, when no node is registered in two tables or below another, its tree has the shape of the layers |
| ExprGrammar.ParseLevel | src/node_expr.c:181-201 | a layer parses its operand layer, then operator and operand pairs as long as they match; the pairs take words although operators may be empty |
| ExprGrammar.ParsePost | src/node_expr.c:154-174 | an operand is a value, a prefix operator and a whole expression, or a parenthesised expression, tried in that order around the cyclic reference |
| ExprGrammar.ParseTerm | src/node_expr.c:175-177 | a term is an operand and the longest run of postfix operators; it takes a prefix of the input, and has the shape of a term when no node is registered in two tables |
| ExprBuild.ExprNode.Build | src/node_expr.c:98-230 | the graph that the build loops make is, node by node, the one the operator tables define, cycle included; it fails without value node or operators and leaves no graph |
| ExprBuild.ExprNode.SetValNode | src/node_expr.c:275-297 | the value node is replaced and the graph rebuilt, so it is always that of the current tables |
| ExprBuild.ExprNode.AddBinOp | src/node_expr.c:299-327 | a binary operator becomes the outermost layer, other tables unchanged, graph rebuilt |
| ExprBuild.ExprNode.AddPreOp | src/node_expr.c:329-357 | a prefix operator is added last, graph rebuilt |
| ExprBuild.ExprNode.AddPostOp | src/node_expr.c:359-387 | a postfix operator is added last, graph rebuilt |
| ExprBuild.ExprNode.AddParenthesis | src/node_expr.c:389-423 | a pair of parentheses is added last, both tables keep one length, graph rebuilt |
| ExprBuild.ParserSolvesGraph | src/node_expr.c:133-218 | the layered parser computes at every node of the cyclic graph what the combinator at that node computes from its children |
| ExprCombinators.NodeAgrees | src/node_expr.c:117-218 | at every node of the cyclic graph, the parser's loop for a sequence, choice or repetition, run over the layered parser of the children, gives what the layered parser gives at the node, child by child; on nodes of the parser the same loops are those it is proved against |
| ExprCombinators.BodyRuns | src/node_expr.c:117-218 | the same for any parser of the children that takes prefixes of its input: the loops give the trees that the equations of the graph ask for |
| ExprUnique.OnlySolution | src/node_expr.c:133-218 | whatever computes at every node of the cyclic graph what its combinator computes from its children is the layered parser |
| ExprUnique.AtSolves | src/node_expr.c:133-218 | and the layered parser is such a solution |
| ExprErrors.AttemptSolves | src/node_expr.c:133-218 | when nodes of the user may report errors, the result at every node of the cyclic graph is what the parser's loop at that node, with its error path, makes of the results of its children |
| ExprErrors.ErrorIffTried | src/node_expr.c:41-55 | an error is the result if and only if some node of the user reports one on an input on which the parse tries that node; otherwise the result is that of the layered parser |
| ExprHidden.ValueHidesPrefixes | src/node_expr.c:154-164 | what starts an operand is taken for a value first: when the value node matches whatever a prefix operator matches, every input is parsed as if there were no prefix operators |
| ExprHidden.PrefixHidesParens | src/node_expr.c:161-174 | and for a prefix expression before parentheses: when those open with words of the value node or of a prefix operator, every input is parsed as if there were no parentheses |
| ExprEvaluator.Evaluator.MergeResults | src/node_expr.c:483-530 | the case table on two partial results, and what it does to the user's values: a callback that succeeds consumes its operands, one that fails touches nothing |
| ExprEvaluator.Evaluator.EvalExpression | src/node_expr.c:532-592 | a run that succeeds owns exactly the value of its result; a run in which a callback fails has freed every value it made that was not consumed, each once |
| ExprEvaluator.Evaluator.MergeChild | src/node_expr.c:571-572 | when merging a child fails both live values are freed, once each |
| ExprEvaluator.Evaluator.EndResult | src/node_expr.c:577-580 | between parentheses the value is handed to the callback, and freed when that fails |
| ExprEvaluator.Evaluator.Run | src/node_expr.c:594-628 | on a tree whose nodes are found in the tables they were parsed from, or in one that does no harm, and without two postfix operators on an operand, the assertions hold, the result is the meaning of the expression, and one value is alive after success and none after failure |
| ExprEval.EvalIsMeaning | src/node_expr.c:532-592 | for every such tree and all callbacks the evaluator returns the denotation t0 op1 ((t1 op2 t2) ... opn tn) of the expression read from the tree |
| ExprFree.MakesCalls | src/node_expr.c:532-592 | with callbacks that record their arguments, any of which may fail, an expression without two postfix operators on an operand denotes one tree of calls, in which the last operator right of the first applies to all between; it denotes an error if and only if one of these calls fails |
| ExprFree.EvaluatedAsWritten | src/node_expr.c:532-592 | for distinct one-word nodes, evaluating what was parsed makes the tree of calls that the words spell, each operator between its operands and each parenthesis around its own, and fails if and only if one of these calls does |
| ExprEval.AssertionIffDoublePost | src/node_expr.c:528 | on every such tree, with callbacks that succeed the final assertion of the merge is reached if and only if some operand has two postfix operators, and a failing callback adds no way in; a result that is returned meets the assertions on it |
| ExprTables.AcceptedMeets | src/node_expr.c:441-476 | tables in which whatever the parser takes is found where the evaluator can do with it yield only such trees: the assertion of the merge is reached if and only if two postfix operators follow an operand, and otherwise all assertions hold |
| ExprTables.UnclashedMeets | src/node_expr.c:441-476 | whatever the nodes match, it is enough that the value node is not among the operators after an operand or the closing nodes, that no binary operator is among prefix operators or opening nodes, and no postfix operator among opening nodes |
| ExprClashes.MeetsIffHarmless | src/node_expr.c:441-530 | for nodes that match words and callbacks that succeed, every input parsed without two operators after an operand meets all the assertions, those on the result included, if and only if no node is registered a second time where it does harm |
| ExprClashes.MinusMinus | src/node_expr.c:622-623 | with one node as binary and as prefix operator, - a leaves an operator in the result and - - a reaches the assertion of the merge, both without two operators after an operand |
| ExprGuard.AssertionIffAdjacent | src/node_expr.c:528 | when each word belongs to one node and each node to one table, the same condition on the input: two postfix words in a row among the parsed words |
| ExprWitness.AssertionIsReached | src/node_expr.c:528 | the words a ^ ^ are parsed whole by a configuration with one postfix operator, and evaluating them reaches the assertion whatever the callbacks return |
| ExprEval.LeftFoldIffAssociative | src/node_expr.c:117-129 | with callbacks that succeed, the grouping of the evaluator is the usual left fold on every chain if and only if the operators are associative on the values of expressions |
| ExprEval.ChainIsLeftFold | src/node_expr.c:117-129 | for all callbacks, a chain whose own operators are associative has the value of the left fold, whatever other operators are |
| ExprEval.ShortChainsAgree | src/node_expr.c:117-129 | for all callbacks, chains of at most one operator have the same value under both groupings |
| ExprEval.SubtractionGroupsRight | src/node_expr.c:117-129 | a chain of two subtractions on which the groupings differ |
| ExprRoundTrip.PrintThenParse | src/node_expr.c:154-201 | every well-formed expression over distinct one-word operators, once printed, parses back to itself and consumes every word |
| ExprLanguage.ParseThenPrint | src/node_expr.c:154-201 | whatever is parsed reads as a well-formed expression that prints as the words consumed |
| ExprLanguage.AcceptsExactlyPrinted | src/node_expr.c:154-201 | a word list is consumed whole if and only if it is the printed form of a well-formed expression |
| ExprLanguage.PrintIsInjective | src/node_expr.c:154-201 | the layered grammar is unambiguous |
| ExprAlphabet.BuildIsOneWord | src/node_expr.c:299-423 | nodes that match one word each, from distinct alphabets, meet all the assumptions of the round trip |
| ExprAlphabet.RoundTrip | src/node_expr.c:532-592 | an operator tree printed with all operands parenthesised, parsed, and evaluated with tree-building callbacks, gives the same tree and consumes every word |
| Parser.ParseState.ParseChild | src/parse.c:34-87 | on a match one finished child is added to the current pnode; on no match or error the tree is exactly what it was; no number of words beyond the input; a node only reachable through once nodes occurs at most once at every moment, when it is below no subset, or only below such in which no two entries can each be followed by another |
| Parser.ParseState.SeqParse | src/node_seq.c:31-68 | the loop of a sequence against its specification, with the children it leaves |
| Parser.ParseState.OrParse | src/node_or.c:28-46 | the first child that does not report no match decides |
| Parser.ParseState.ManyParse | src/node_many.c:28-81 | greedy repetition between min and max, an empty match ends it and is unlinked, too few matches free the children |
| Parser.ParseState.ParseOnly | src/node_bypass.c:25-39 | a node with a single child returns what the child does |
| Parser.ParseState.CountNode | src/node_once.c:27-42 | occurrences of a node in the whole tree, from its root |
| Parser.ParseState.SubsetSearch | src/node_subset.c:37-121 | the search over the orders of the remaining nodes, with the pnodes it links and unlinks |
| Parser.ParseRoot | src/parse.c:99-114 | a parse from a fresh root: the result is the specification's, and under that condition every state of the run has the watched node at most once |
| GrammarMeaning.ParseMeans | src/parse.c:34-87 | without once and subset nodes, for every tree: a node matches with that tree if and only if it takes it, told by an independent relation (children in turn, the first that does not refuse, the longest repetition within its bounds), and it reports an error if and only if a node does where it is tried |
| GrammarMeaning.FixedMatches | src/node_str.c:26-50 | nodes without a choice match if and only if some derivation from them starts the input, and then with that one |
| GrammarMeaning.ChoiceMatches | src/node_or.c:28-46 | a choice of such nodes takes a tree if and only if it is derived from one of them, starts the input, and nothing derived from an earlier one does |
| GrammarMeaning.OptionMatches | src/node_option.c:25-47 | an option takes what its node derives, and nothing if and only if nothing derived from that starts the input |
| GrammarMeaning.RepetitionIsGreedy | src/node_many.c:28-81 | a repetition with a maximum that matches has that many children, or nothing derived from its node starts what is left |
| OnceFacts.ExclusiveIsTame | src/node_subset.c:91-112 | a subset of which no two entries match the same input meets that condition |
| OnceTwice.TwiceIffBoth | src/node_once.c:44-66 | in a matched subset of two entries, the second a once node, its child occurs twice if and only if each of the two nodes matches after the other |
| OnceTwice.OnceIsTwice | src/node_once.c:44-66 | a subset of any word and once any word, on two words, holds the once node's child twice |
| OnceTwice.OnceAt | src/node_once.c:44-66 | a once node refuses when its child is in the tree, and otherwise takes what the child takes |
| GrammarFacts.MatchIsDerivation | src/parse.c:34-87 | without subset nodes, a matched tree is a derivation: every pnode's vector is the concatenation of its children's, with the counts and the order its node asks for |
| GrammarFacts.PathIrrelevant | src/node_once.c:44-66 | without once nodes the result depends on the input only |
| GrammarFacts.SubsetIsLongest | src/node_subset.c:37-149 | a subset finds the largest number of distinct children that match one after the other in some order, takes the words of such an order, and matches if and only if the number reaches min |
| SubsetOrders.SettlesOnFirst | src/node_subset.c:37-149 | a subset reports an error if and only if a child does after some others have matched, in whatever order; otherwise, of the longest orders in which children match one after the other, the words taken are those of the first by the position of the entries, and its length decides against min |
| SubsetTree.ChildrenAreCounted | src/node_subset.c:91-112 | a matched subset leaves at least one child for each node of the longest order, and exactly those if and only if at every point of the search at most one node that matches can be followed by another |
| SubsetTree.WordsAreKept | src/node_subset.c:91-112 | under that condition the children's words in order are those of the subset, and for children that take words only then |
| SubsetTree.ThreeForTwo | src/node_subset.c:91-112 | two any nodes on two words leave three children |
| PnodeIter.IterNext | src/parse.c:374-393 | the next pnode is the first of those that remain in preorder, or none remain |
| PnodeIter.Count | src/parse.c:424-438 | iterating counts each occurrence of a node in the tree once |
| PnodeIter.Find | src/parse.c:395-422 | the first pnode of a node in preorder, none exactly when the tree has none |
| PnodeIter.PreHas | src/parse.c:374-393 | every pnode of the tree is in the preorder the iterator follows |
| PnodeIter.CountPre | src/parse.c:424-438 | counting over preorder positions is the structural count of the tree, and every position is one of the tree |
| PnodeIter.PreSorted | src/parse.c:374-393 | that preorder is sorted: parents before what is below them and siblings in order, which with the row on PnodeIter.PreHas leaves one list |
| Completer.Completer.CompleteChild | src/complete.c:99-143 | on success and on error the parse state and the current group are restored, so the assertion that the child has no children holds; the groups added are those of the specification |
| Completer.Completer.CompleteNode | src/complete.c:103-127 | the completion callback of every kind of node against its specification |
| Completer.Completer.AddItem | src/complete.c:413-451 | the item is added last to the current group, whichever it is, or to a new group for the node, and the counters of full and partial items stay exact |
| Completer.Completer.SeqComplete | src/node_seq.c:70-141 | completing a sequence: its first node, then the rest after every prefix the first node takes whole; parse children added are deleted |
| Completer.Completer.OrComplete | src/node_or.c:48-65 | every child is completed in turn until one reports an error; that all that is reached is offered is said by Offers.CompleteReaches |
| Completer.Completer.ManyComplete | src/node_many.c:83-150 | completing a repetition after each match; the children it parsed are deleted on every way out |
| Completer.Completer.SubsetComplete | src/node_subset.c:151-219 | every entry of the child table is masked, tried and put back: the table and the parse state end as they began |
| Completion.StrcmpCount | src/string.c:18-26 | the scan stops at the first difference or end, and the prefixes before it are equal |
| Completion.OffersFit | src/complete.c:276-342 | every full item offered for any grammar has current equal to the last input word, and full equal to current followed by completion |
| Completion.NothingOnEmpty | src/node_seq.c:85-103 | completing any node with an empty vector adds no item |
| Offers.CompleteReaches | src/complete.c:99-143 | without once nodes completion fails if and only if it reaches an error, and otherwise offers exactly the items of the leaves it reaches, told by an independent relation: any child of a choice, a later child of a sequence after a slice that the one before takes whole, the child of a repetition after some matches, any entry of a subset after others that match |
| Offers.WordOffered | src/node_str.c:52-81 | without once nodes and nodes that report errors, a word is offered if and only if a string node is reached that offers it |
| Offers.WordAtLeaf | src/node_str.c:52-81 | a leaf offers a word if and only if it is the string node of that word and the only word left is a prefix of it |
| Offers.ChoiceInOrder | src/node_or.c:48-65 | a choice offers what its first nodes offer and then what the others do, unless an error stops it before |
| OnceOffers.OnceOffered | src/node_once.c:68-98 | after a node and in a tree without its child, a once node adds the items of the child after each slice that the node takes without a pnode of the child in it |
| OnceOffers.OnceIsSpent | src/node_once.c:68-98 | after its own child a once node offers nothing |
| Interact.IterNext | src/complete.c:676-706 | the iterator returns the wanted items of all groups, each once, in order |
| Interact.SelectedItems | src/complete.c:676-706 | the items iterated over are those of all groups with a wanted kind, at increasing positions, and no others |
| Interact.AppendChars | src/interact.c:159-187 | the result is the longest text that all completions start with, empty when there are none |
| Interact.CompleteAndAppend | src/interact.c:159-187 | last word typed with the result appended is a prefix of every string offered |
| ShellLex.LexStr | src/strvec.c:324-495 | the loop over characters with its token buffer returns the words, spans, errors and missing quote of the state machine, for any previous content of the buffer |
| ShellLex.LexChar | src/strvec.c:363-457 | one character in every state, with the buffer written in place and always terminated; what words and comments become is said by ShellSpelling.WordSpelled and ShellComments.CommentIsUncovered |
| ShellLex.LexEnd | src/strvec.c:461-489 | the end of the string: strict mode, the last word, and the empty word for trailing blanks |
| ShellLex.FailsOnLongWord | src/strvec.c:335-343 | the string fails for want of buffer if and only if some word has at least as many characters as the buffer holds; otherwise it is read as with any larger buffer |
| ShellSpans.SpansInOrder | src/strvec.c:393-407 | each span is non-empty and within the string, spans are increasing and apart; only the word for trailing blanks is past the end, at offsets stated exactly |
| ShellSpans.SpanLexesAlone | src/strvec.c:393-407 | lexing the span of a word alone gives exactly that word, or nothing if and only if the span is only pairs of empty quotes |
| ShellSpans.OnlyBlanksOutside | src/strvec.c:363-390 | every character before the current word and outside the spans is a blank or in a comment |
| ShellComments.CommentIsUncovered | src/strvec.c:453-455 | from a pound sign that is in no word, no character is in a word until the line ends, the last word included |
| ShellSpelling.WordSpelled | src/strvec.c:363-475 | the span of a word spells its text: plain characters, escapes, and stretches between quotes with the escapes each allows; a blank or the end follows it, and only the last can be left open, when not strict |
| ShellSpelling.StrictRefuses | src/strvec.c:466-475 | a string that strict mode refuses ends in a word that is spelled open, and one that it accepts in a word that is spelled closed |
| ShellTrailing.TrailingIff | src/strvec.c:484-489 | with the flag for trailing blanks an empty word past the end is added to an empty string and to one that ends with a blank that is in no word, in no comment and not the end of one, and to no other string |
| ShellSpans.MissingQuote | src/strvec.c:468-471 | the missing quote reported is the one the unfinished word begins with, text or not, and the null character otherwise |
| ShellSpans.MissingQuoteIsOpen | src/strvec.c:468-471 | it is the quote that is open if and only if the unfinished word begins with that quote, or with no quote when none is open |
| ShellSpans.MissingQuoteNotReported | src/strvec.c:468-471 | a double quote opened in the middle of a word is open and not reported |
| ShellQuote.QuotedLength | src/string.c:138-145 | the first pass computes the exact size of the quoted text with quotes and terminator |
| ShellQuote.WriteEscaped | src/string.c:154-170 | the second pass writes the escape of a character and nothing else |
| ShellQuote.HexEscape | src/string.c:161-166 | a byte that is not printable is escaped by two digits that read back as its value |
| ShellQuote.QuoteStr | src/string.c:115-176 | the quoted text and its terminator fill the allocated buffer exactly, for all quotes and both values of force |
| ShellRoundTrip.ListRoundTrip | src/strvec.c:358-488 | words quoted with double quotes and joined by spaces lex back to the same list, whatever the buffer held, if and only if all are non-empty, shorter than the buffer, and printable or newline |
| ShellRoundTrip.ListRun | src/strvec.c:391-407 | for any list, each word lexed is the last non-empty text at that point, and lexing fails if and only if some escaped word does not fit |
| ShellRoundTrip.EmptyWordIsLost | src/strvec.c:391-407 | a list of one empty word reads back as no word |
| ShellRoundTrip.EmptyWordRepeats | src/strvec.c:391-407 | an empty word between two others reads back as the first of them |
| ShellAnyQuote.QuoteRoundTrip | src/string.c:115-176 | for every quote character, forced or not, strict or not, a word lexes back to itself if and only if it is good and the quoting is faithful to it: always between double quotes, otherwise under a condition on its characters, and never between ordinary ones |
| ShellAnyQuote.OrdinaryQuoted | src/string.c:148-172 | a quote character that the lexer does not know ends up in the word, so no word survives |
| ShellAnyQuote.SlashQuoted | src/string.c:154-170 | between backslashes a good word survives if and only if the lexer is not strict and, after its leading backslashes and one more character, it has no space or quote |
| ShellAnyQuote.WordsThatAreLost | src/string.c:122-136 | automatic quoting loses a word with both quotes, one with a backslash, and one that starts with a pound sign |
| ShellQuoteKinds.SingleQuoted | src/string.c:131-136 | between single quotes escapes are not read back, so a word with a single quote or backslash never survives |
| ShellQuoteKinds.CopiedReadsBack | src/string.c:122-129 | a word copied without quotes survives if and only if it has no backslash and no leading pound sign |
| StrWrap.Grow | src/string.c:194-211 | the new size is the smallest doubling of the old one in which word, offset and margin fit, and the text is kept |
| StrWrap.WrapState.StartLine | src/string.c:213-229 | a line break with its optional empty line and padding stays within the margin |
| StrWrap.WrapState.AppendToken | src/string.c:189-242 | a word is put on the last line or on a new one as the layout says, with no write past the buffer |
| StrWrap.SkipBlanks | src/string.c:261-268 | blanks are skipped and their newlines counted |
| StrWrap.SkipWord | src/string.c:270-274 | a word is the longest run without blanks |
| StrWrap.Wrap | src/string.c:244-288 | the buffer returned holds exactly the rendering of the greedy layout of the text; what its rows look like is said by WrapLines.RowIsPadded and WrapLines.EmptyRowIff |
| StrWrap.WrapKeepsWords | src/string.c:244-288 | the output has the words of the input, in order |
| StrWrap.WrapFits | src/string.c:213-214 | every output line with more than one word is within the columns, counting the offset of the first line |
| StrWrap.PlacedFills | src/string.c:213-214 | a line ends only where a space and one more word would not fit |
| WrapLines.RowIsPadded | src/string.c:213-242 | every row of the output is empty, or words with one space between them after the offset in spaces, which the first row has not |
| WrapLines.EmptyRowIff | src/string.c:213-229 | between two rows of words next to each other there is one empty row if the first of them is not the first row of all and a gap of the text after its first word, up to the first word of the other, has two newlines or more; otherwise none |
| WrapLines.ScannedAt | src/string.c:261-274 | those gaps are the runs of blanks of the text: each word scanned stands in the text, after as many words and a gap with as many newlines as it is said to |
| StrVec.Vec.Add | src/strvec.c:90-113 | a string is added last; other vectors keep theirs |
| StrVec.Vec.Set | src/strvec.c:71-88 | one string is replaced by a fresh one without attributes, out of range is refused; duplicates keep the old string |
| StrVec.Vec.DelLast | src/strvec.c:136-147 | the last string goes, refused when empty; duplicates keep it |
| StrVec.Vec.Ndup | src/strvec.c:149-180 | a part of a vector sharing its strings, or nothing when out of bounds; reference counts stay exact |
| StrVec.Vec.SetAttrs | src/strvec.c:227-253 | attributes change in this vector only: a shared string is copied first |
| StrVec.Vec.Free | src/strvec.c:187-202 | all references are dropped, other vectors keep their content |
| StrVec.EltFree | src/strvec.c:61-69 | one reference fewer, and release with the last |
| RefCount.AgreesUnref | src/htable.c:67-82 | dropping the reference of one container keeps every count equal to the number of holders, and an element is released exactly when it has none |
| RefCount.AgreesStore | src/htable.c:171-173 | storing hands over the pending reference |
| RefCount.AgreesShare | src/htable.c:314-315 | sharing an element adds one pending reference |
| RefCount.OnlyHolder | src/strvec.c:236-241 | an element with one reference has one holder |
| HashTable.HTable.Lookup | src/htable.c:40-65 | looking in the bucket of the hash finds what looking in the whole list does |
| HashTable.HTable.Get | src/htable.c:89-98 | the value the insertion-ordered map has for the key |
| HashTable.HTable.Del | src/htable.c:100-118 | the entry of the key goes, order kept; reported when there is none; other tables unchanged; counts exact |
| HashTable.HTable.Resize | src/htable.c:120-149 | only sizes that are powers of two are accepted, smaller than the number of elements too; every element moves to the bucket of its hash, in order |
| HashTable.HTable.Link | src/htable.c:159-173 | growing when full, then adding last in bucket and list |
| HashTable.HTable.Store | src/htable.c:151-176 | the entry with the same key goes first, then the element is added last |
| HashTable.HTable.Set | src/htable.c:178-226 | a set key moves to the end with its new value, an empty key is refused; other tables keep their content |
| HashTable.HTable.Dup | src/htable.c:302-328 | a duplicate has the same entries in the same order and shares all elements |
| HashTable.HTable.Free | src/htable.c:228-245 | every reference is dropped, and elements that no other table holds are released; other tables keep their content |
| HashTable.EltUnref | src/htable.c:67-82 | the free callback runs once, with the last reference, if there is one |
| HashSpec.MaskIsRemainder | src/htable.c:56 | hash & (size - 1) is the remainder by the size for powers of two |
| HashSpec.BitTestIsPowerOfTwo | src/htable.c:126 | the size test accepts exactly the powers of two |
| HashSpec.BucketFinds | src/htable.c:55-61 | buckets are the list filtered by hash, so searching one is searching all |
| HashSpec.TableAdd | src/htable.c:171-173 | adding keeps size, buckets, order and distinct keys |
| HashSpec.TableMinus | src/htable.c:111-115 | removing keeps size, buckets, order and distinct keys |
| HashSpec.SetValue | src/htable.c:178-226 | in the ordered map a set key has its value and other keys keep theirs; a deleted key has none |
| HashSpec.RunKeepsLastWrite | src/htable.c:89-226 | after any run of sets and deletions a key has the value it was last set to, or none when it was deleted since or never set |
| HashSpec.RunKeepsOrder | src/htable.c:247-266 | after any run the iterator returns the entries in the order in which their keys were last set |
| HashSpec.EntriesDrop | src/htable.c:100-118 | removing the element found for a key removes exactly its entry |
| References.CountReferences | src/node.c:158-176 | on any graph, cycles included, counting ends; exactly what can be reached through unmarked nodes gets marked, and each count grows by the references of the newly marked parents and of the caller |
| References.CountReachable | src/node.c:237-238 | from an unmarked graph each node reachable from the root ends with the references its reachable parents hold, one more for the root; others are untouched |
| References.MarksReachable | src/node.c:158-176 | the marked set is the set of nodes with a path from the root |
| References.IncomingUnion | src/node.c:171-175 | references from two disjoint sets of parents add up |
| References.ResetMark | src/node.c:200-218 | clearing ends on cyclic graphs, resets some nodes and leaves the others as they were, and no cleared node has a marked child left |
| References.CountAndReset | src/node.c:200-218 | counting and then clearing from the same node restores a clean graph |
| FreeMarks.MarkFreeable | src/node.c:178-198 | whenever the walk over the graph from that node and mark ends, marking leaves the marks that it does; the assertion on the counts holds |
| FreeMarks.WalkSpreads | src/node.c:178-198 | a walk that ends gives each node the mark it was reached with, and hands it to all its children, except that held nodes are never freeable |
| FreeMarks.MarkingEndsIffBounded | src/node.c:178-198 | after the count, marking ends if and only if it does within as many nested calls as there are different ones, of node, mark handed down, and marks at the time |
| FreeMarks.UntangledEnds | src/node.c:178-198 | it ends when no node is both on a cycle of nodes that could be freed and on a cycle through a held node |
| FreeMarks.CountAndMark | src/node.c:230-241 | from any unmarked graph on which marking ends: what the root reaches only by paths without held nodes is freeable, what only held nodes reach is not, what both reach is marked either way, and the rest is untouched |
| FreeMarks.ApartIsUntangled | src/node.c:230-241 | the condition holds when the root is held, when nothing it reaches is, and when nothing is reached both with and without passing a held node; in the first two cases everything reached is not freeable, or freeable |
| RebuiltGraph.AssertionIffApart | src/node.c:189 | for the graph that the build makes from any tables, when the expression node drops it: no counted number exceeds the references if and only if the expression node is not reached from what was built; otherwise the count of the root does |
| RebuiltGraph.CountBuilt | src/node_expr.c:104 | after counting from the root of that graph the assertion on the root holds if and only if the expression node is not reached |
| RebuiltGraph.RebuiltEnds | src/node_expr.c:104 | then marking that graph ends if the nodes of the user that could be freed, such as a value node that was replaced, are not tangled with held ones |
| RebuiltGraph.RegisteredIsApart | src/node_expr.c:104 | and it ends when all nodes in the tables are also referenced from there; without passing a held node exactly the built nodes are reached |
| RebuiltGraph.CountAndMarkBuilt | src/node_expr.c:104 | counting and marking from the root makes all built nodes freeable; of the user's, those that held ones lead to are not, unless reached otherwise too, and none is when all in the tables are referenced from there |
| RebuiltExample.DropSmallest | src/node_expr.c:104 | the graph of one postfix operator, allocated and counted as the build does: the assertion holds unless the value node contains the expression |
| RebuiltExample.FreeSmallest | src/node_expr.c:104 | in that case marking makes the seven built nodes freeable and neither the value nor the operator |
| FreeExamples.RebuiltIsFreed | src/node_expr.c:104 | on a root with a reference back to it and a registered operator marking makes the cycle freeable and the operator not |
| FreeExamples.RebuiltIsCounted | src/node.c:158-189 | that graph is as the count leaves it, and meets the assertion on the counts |
| FreeExamples.MarkingNeverEnds | src/node.c:178-198 | on a graph of three nodes whose first child is referenced from outside, marking exceeds every depth of recursion |
| FreeExamples.OrderDecides | src/node.c:193-197 | with the children of the root the other way round, marking that graph is done, and nothing is freeable |
| FreeExamples.KnotIsTangled | src/node.c:178-198 | a graph of four nodes whose root is on a free cycle and on a cycle through a held node |
| FreeExamples.KnotEnds | src/node.c:178-198 | marking that graph is done with either order of the children of the root |
| FreeExamples.KnotIsCounted | src/node.c:158-189 | that graph is as the count leaves it, and meets the assertion on the counts |
| FreeExamples.LoopIsCounted | src/node.c:158-189 | that graph is as the count leaves it, and meets the assertion on the counts |
| FreeExamples.FreeableBelowHeld | src/node.c:235-236 | on a graph whose counts are exact, a child of a node marked not freeable ends freeable |
| FreeExamples.SharedIsCounted | src/node.c:158-189 | that graph is as the count leaves it, and meets the assertion on the counts |
| FreeExamples.NothingFreeableBelowHeld | src/node.c:235-236 | with the held node visited last, its child ends not freeable |
| CmdCompile.EvalBinOp | src/node_cmd.c:147-262 | binary operators extend one operand in place or make a new node, with the minimum of subsets reset; on error both operands are untouched |
| CmdCompile.EvalPostOp | src/node_cmd.c:107-145 | '*' and '+' make repetitions of minimum 0 and 1, anything else is an error; what they match is said by CmdOperators.PlusMeans and CmdOperators.StarMeans |
| CmdCompile.EvalParenthesis | src/node_cmd.c:264-301 | brackets make an option, parentheses give back the node itself |
| CmdCompile.EvalVar | src/node_cmd.c:50-89 | an identifier is the first node of the table with that id, or a string node |
| CmdCompile.CompiledIsSound | src/node_cmd.c:202-255 | in what any command compiles to, every node below that is not from the table has several children if it is a sequence, choice or subset, a subset has minimum 1 or all of them, and a repetition has minimum 0 or 1 |
| CmdCompile.MinTellsOperator | src/node_cmd.c:203-234 | the minimum of a compiled subset tells whether ',' or '&' built it, for every command |
| CmdMatch.JuxtaposeTakesBoth | src/node_cmd.c:169-182 | extending a sequence consumes exactly what the nested sequence would |
| CmdMatch.EitherMatchesOne | src/node_cmd.c:183-201 | for operands that cannot report errors, an extended and reordered choice matches if and only if one of them does |
| CmdMatch.SomeOfMatchesOne | src/node_cmd.c:202-228 | a list node matches if and only if one of the operands does, flattened or not |
| CmdMatch.ChainIsGroup | src/node_expr.c:532-592 | a chain of one command operator compiles to the grouping of its operands |
| CmdMatch.GroupMatchesSome | src/node_cmd.c:183-228 | a chain of choices, or of list elements, matches if and only if one of its operands does |
| CmdMatch.ChoiceOrder | src/node_cmd.c:183-201 | a chain of choices between operands that are none themselves compiles to one choice, which takes what the first operand that matches takes, where from three operands on the one written first is tried last |
| CmdMatch.FirstIsLast | src/node_cmd.c:183-201 | in a choice written as x, any, y the word x is taken by the any node |
| CmdMatch.GroupTakesAll | src/node_cmd.c:169-182 | a juxtaposed chain takes what its operands take one after the other |
| CmdMatch.GroupNeedsAll | src/node_cmd.c:229-256 | a chain of '&' becomes one subset of its operands that needs all of them |
| CmdMatch.GroupMatchesAll | src/node_cmd.c:229-256 | a chain of '&' matches if and only if its operands match one after the other in some order |
| CmdMatch.PlusMatches | src/node_cmd.c:133-137 | '+' matches if and only if its operand matches at least one word |
| CmdMatch.PlusRefusesEmpty | src/node_many.c:61 | an operand that matches without a word is refused by '+' |
| CmdMatch.BracketsMatch | src/node_cmd.c:286-292 | brackets take what the operand takes, or nothing |
| CmdOperators.PlusMeans | src/node_cmd.c:107-145 | an operand followed by '+' compiles if the operand does, and, for operands without once nodes and errors, matches if and only if that takes a word |
| CmdOperators.StarMeans | src/node_cmd.c:107-145 | one followed by '*' compiles if the operand does, and, for the same operands, always matches and takes what '+' takes, or nothing |
| CmdOperators.BracketsMean | src/node_cmd.c:264-301 | an expression in brackets compiles if the expression does, and, for the same operands, takes what that takes, or nothing |
| CmdOperators.ParenthesesMean | src/node_cmd.c:264-301 | an expression in parentheses compiles to what the expression does |
| CmdOperators.WordMeans | src/node_cmd.c:50-89 | an identifier in the table compiles to its first node with that id, and any other word to a node that takes exactly this word |
| CmdOperators.CompilesIffKnown | src/node_cmd.c:107-301 | a command compiles if and only if its identifiers are single words, it has no prefix operators and no two postfix operators on an operand, and every operator in it is one that the callbacks know |

## Left out

- FreeMarks.UntangledEnds: a sufficient condition on the graph. Beyond it there are graphs that never end (FreeExamples.MarkingNeverEnds), that end with one order of the children (FreeExamples.OrderDecides), and that end with either (FreeExamples.KnotEnds), so no condition on the references alone is exact; the exact one, FreeMarks.MarkingEndsIffBounded, is a bound on the walk itself.
- FreeMarks.CountAndMark: only one half is stated of when everything below an unfreeable node is unfreeable (FreeExamples.NothingFreeableBelowHeld). The rest of ec_node_free (src/node.c:243-271) is left out.
- RebuiltGraph.CountAndMarkBuilt: the graph has all nodes in memory, and nothing but the built nodes and the expression node references a built one.
- Grammars closed by a reference are not part of Parser, Completer and Completion: there a node is an inductive tree. The cyclic grammar of the expression node is modelled apart, and parsed by a function over its tables.
- ExprGrammar.Parse: the shape of the tree is stated when no node is registered in two tables or below another registered node; ExprTables.AcceptedMeets gives it for nodes in two tables where that does no harm. Without that, the prefix taken, the words it takes at least, and termination are stated.
- ExprClashes.MeetsIffHarmless: exact for nodes that match one word of their own. For other nodes ExprTables.UnclashedMeets gives one direction, and evaluation below a registered node that contains another registered node is not modelled as an expression.
- Parser.ParseState.ParseChild: the parse tree is a path of open pnodes with finished children instead of doubly linked pnodes, so aliasing between pointers is not captured. The condition on subsets for the once property is sufficient; the exact one is stated for two entries (OnceTwice.TwiceIffBoth), since with more it depends on which order is found last.
- GrammarMeaning.ParseMeans: without once and subset nodes. What a once node takes depends on the tree parsed so far (OnceTwice.OnceAt), and a subset's result is stated apart, without its children (SubsetOrders.SettlesOnFirst, SubsetTree.ChildrenAreCounted).
- Offers.CompleteReaches: without once nodes; a once node is stated where it ends a sequence of two (OnceOffers.OnceOffered), and its bare callback by Completer.Completer.CompleteNode.
- PnodeIter.IterNext: a pnode is its position under the root of the iteration instead of a linked object.
- ExprAlphabet.RoundTrip: binary operators match one word each; the empty operator that node_cmd uses is covered by parsing, termination and evaluation, not by printing.
- Prefix operators and opening nodes of an expression must take at least one word; a grammar that breaks this loops in the source as well. A node of the user returns one tree for one input.
- CmdCompile.EvalBinOp: operands are owned by the evaluation and their children are values, so reference counts of nodes are not captured here; nodes given by the user must not be seq, or or subset nodes, which the source would extend in place.
- CmdMatch.ChoiceOrder: operands that are choices themselves, through parentheses, are extended in place, and only what they match is stated (CmdMatch.EitherMatchesOne).
- CmdMatch.EitherMatchesOne: like the other lemmas of its module, it takes operands without once nodes and without nodes that report errors, on which a choice stops early.
- CmdMatch.GroupMatchesAll: operands that are themselves '&' subsets, through parentheses, are merged or nested by the same code, and only their soundness is stated.
- HashTable.HTable.Lookup: the hash is an arbitrary function that does not change while a table lives; reseeding it is not modelled, nor are keys of equal bytes in different buffers, which are equal here.
- HashTable.HTable.Set: a value whose key is refused is not released, as in the source.
- StrVec.Vec.Ndup: offsets and lengths are unbounded integers, so their sum does not wrap around.
- StrVec.Vec.SetAttrs: an attribute dictionary is a value, and its own release is not modelled; ec_strvec_sort and ec_strvec_cmp are left out.
- ShellLex.LexStr: characters are bytes and blanks are those of ASCII; the size of the token buffer is a parameter.
- StrWrap.Wrap: sizes are unbounded integers, and the casts to int in the format are not modelled.
- References.CountReferences: counts are unbounded integers.
- Completer.Completer.CompleteChild: attributes, display strings and the pnode duplicated for each group are left out; the attribute test of the any node is too.
- Completions are not claimed to be accepted by the greedy parser: sequences are completed over parsed prefixes, and the parser may reject what is offered.
- Failing allocations and errno.
- re, re_lex, sh_lex, int, cond, dynlist, dynamic, file, space and none nodes, dict, config, vec and log wrappers, YAML, editline and the examples: they use libraries outside the repository or would only add easy members.
