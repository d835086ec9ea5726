# Boolean retrieval over an inverted index

This project models the query engine of a small Boolean retrieval system:

- `tokenize` turns a text into the set of its lowercased whole words.
- `build_inverted_index` maps every term to the set of ids of the documents that contain it.
- `boolean_retrieval` answers a query made of terms and the keywords `AND`, `OR` and `NOT`. It uppercases the query, splits it on whitespace and converts it to postfix order with the shunting-yard algorithm (NOT 3, AND 2, OR 1, equal precedence associating to the left). It then evaluates the postfix form over a stack of posting sets.

Modules:

- `Text` (text.dfy): ASCII character classes, `lower`/`upper`, the maximal runs of one character class (`\w+` between word boundaries, and `split()`).
- `Tokenizer` (tokenizer.dfy): `tokenize`.
- `InvertedIndex` (inverted_index.dfy): the index type, `index.get(w, set())`, and the index builder as a method whose loop over the documents calls `AddDocument`, a method holding the inner loop over one document's terms.
- `ShuntingYard` (shunting_yard.dfy): query words as tokens, the conversion as a method with loops, and a specification function `Postfix` it is proved equal to.
- `Retrieval` (retrieval.dfy): `apply_operator`, the evaluation loop as a method proved equal to `EvalPostfix`, and `boolean_retrieval`.
- `CorrectedNot` (corrected_not.dfy): the evaluation with NOT as it is evidently meant (see Findings).

An exception raised by the code is the `Failure` case of `Result`. Two behaviours of the evaluation loop are worth stating up front:

- NOT never succeeds: when the stack is empty, its `pop()` raises; otherwise it calls `lower()` on the popped posting set, which raises (see Findings).
- Operands left over on the stack are not an error: the answer is the bottom of the stack (`stack[0]`), and the sets above it are ignored.

## Model

| member | source | states |
|---|---|---|
| Text.IsWordChar | boolean_retrieval_app.py:8 | `\w` on ASCII: a letter, a digit or the underscore; `Text.RunsFromAreMaximalRuns` and `Tokenizer.TokenizeFindsWholeWords` characterise the words built from it |
| Text.IsSpace | boolean_retrieval_app.py:43 | the ASCII whitespace `split()` separates on (tab, line feed, vertical tab, form feed, carriage return, 0x1C-0x1F, space); `Text.SplitFindsWholeWords` characterises the words between it |
| Text.LowerChar | boolean_retrieval_app.py:8 | lowercasing keeps every character that is not an upper-case letter and maps each upper-case letter to the lower-case letter at the same place in the alphabet, which uppercases back to it; word and space characters stay what they are |
| Text.UpperChar | boolean_retrieval_app.py:43 | uppercasing keeps every character that is not a lower-case letter and maps each lower-case letter to the upper-case letter at the same place in the alphabet; word and space characters stay what they are |
| Text.LowerUndoesUpper | boolean_retrieval_app.py:43 | lowercasing an uppercased lower-case letter gives the letter back |
| Text.Lower | boolean_retrieval_app.py:8 | `text.lower()` has the text's length and changes exactly its upper-case letters, each to its lower-case counterpart |
| Text.Upper | boolean_retrieval_app.py:43 | `query.upper()` has the query's length and changes exactly its lower-case letters, each to its upper-case counterpart |
| Text.RunEnd | boolean_retrieval_app.py:8 | the greedy `\w+` match from a position ends at the first non-word character |
| Text.RunsFrom | boolean_retrieval_app.py:8 | every run found is non-empty and made of characters of the class, taken from the string |
| Text.RunsFromAreMaximalRuns | boolean_retrieval_app.py:8 | a string is found by the scan exactly when it is a maximal run of the class (both directions) |
| Text.NoRunsWithoutMatch | boolean_retrieval_app.py:43 | a string without a character of the class has no runs (a blank query has no words) |
| Text.Split | boolean_retrieval_app.py:43 | every word of `split()` is non-empty and holds no whitespace |
| Text.SplitFindsWholeWords | boolean_retrieval_app.py:43 | a string is a word of `split()` exactly when it is a maximal run of non-space characters (both directions) |
| Text.RunsFromAfterPrefix | boolean_retrieval_app.py:8 | the runs of x + y found from a position inside y are exactly the runs of y, in the same order |
| Text.SplitSkipsSpace | boolean_retrieval_app.py:43 | leading whitespace contributes no word |
| Text.SplitLeadingWord | boolean_retrieval_app.py:43 | a word followed by whitespace is the first word of `split()`, and the words of the rest follow in their order, repetitions kept |
| Text.SplitSingleWord | boolean_retrieval_app.py:43 | a single word splits into itself |
| Text.SplitOfUpper | boolean_retrieval_app.py:43 | splitting the uppercased query gives the query's own words uppercased |
| Text.UpperIgnoresCase | boolean_retrieval_app.py:43 | strings equal up to case uppercase to the same string |
| Text.LowerOfUpper | boolean_retrieval_app.py:89 | a query word uppercased and then lowercased for lookup equals the word lowercased |
| Text.LowerIsIdempotent | boolean_retrieval_app.py:8 | lowercasing twice is lowercasing once |
| Tokenizer.Tokenize | boolean_retrieval_app.py:6-8 | every term is a non-empty run of word characters with no upper-case letter; empty text has no terms |
| Tokenizer.TokenizeFindsWholeWords | boolean_retrieval_app.py:8 | w is a term of a text exactly when w is a maximal run of word characters of the lowercased text |
| Tokenizer.TokenizeIgnoresCase | boolean_retrieval_app.py:8 | a text and its lowercase form have the same terms |
| InvertedIndex.BuildInvertedIndex | boolean_retrieval_app.py:11-26 | d is posted under w exactly when w is a term of d's text; no term has an empty posting set; postings only name given documents; no documents give an empty index |
| InvertedIndex.IndexWithinDocs | boolean_retrieval_app.py:21-26 | posting sets of an inverted index name only documents of the collection |
| InvertedIndex.IndexIsUnique | boolean_retrieval_app.py:21-26 | two inverted indexes of the same collection are equal, whatever the visiting order |
| InvertedIndex.UnknownTermHasNoPostings | boolean_retrieval_app.py:24-25 | a term found in no document is not a key and looks up to the empty set |
| InvertedIndex.Lookup | boolean_retrieval_app.py:89 | `index.get(w, set())`: a word that is not a key looks up to the empty set |
| InvertedIndex.LookupWithinPostings | boolean_retrieval_app.py:89 | a looked-up posting set only names documents of the index |
| InvertedIndex.AddDocument | boolean_retrieval_app.py:23-25 | after the inner loop, d is added to the postings of exactly its words and every other posting is unchanged; no posting set is empty |
| ShuntingYard.Classify | boolean_retrieval_app.py:68 | a word is an operator exactly when it is AND, OR or NOT; any other word is a term carrying that word |
| ShuntingYard.Precedence | boolean_retrieval_app.py:48-55 | NOT has the highest precedence (3), OR the lowest (1), AND the one between |
| ShuntingYard.PopTighter | boolean_retrieval_app.py:69-70 | the pop loop leaves a prefix of the stack whose top binds less tightly than the incoming operator, after popping only operators that bind at least as tightly, and appends exactly the popped operators to the output, top of the stack first |
| ShuntingYard.Shunt | boolean_retrieval_app.py:68-73 | one word of the conversion; `ShuntingYard.ShuntKeepsStackIncreasing` proves it keeps the operator stack increasing in precedence |
| ShuntingYard.Drain | boolean_retrieval_app.py:74-75 | the final loop appends every remaining operator to the output, top of the stack first |
| ShuntingYard.ShuntFrom | boolean_retrieval_app.py:67-75 | the conversion from a given state; `ShuntingYard.ShuntFromPermutes` and `ShuntingYard.ShuntFromKeepsTerms` prove it permutes the words and keeps the terms in order |
| ShuntingYard.ShuntFromPermutes | boolean_retrieval_app.py:67-75 | the output from a state holds exactly the output so far, the stacked operators and the remaining words, as a multiset |
| ShuntingYard.ShuntFromKeepsTerms | boolean_retrieval_app.py:67-75 | the terms of the output from a state are the terms output so far followed by the terms of the remaining words, in order |
| ShuntingYard.Postfix | boolean_retrieval_app.py:67-75 | the postfix form of the query words; `ShuntingYard.PostfixIsPermutation` proves it a permutation keeping the terms in order, and `ShuntingYard.ToPostfix` is the loop proved equal to it |
| ShuntingYard.ToPostfix | boolean_retrieval_app.py:67-75 | the loop's output equals `Postfix` of the words, is a permutation of them and keeps the terms in their order |
| ShuntingYard.PostfixIsPermutation | boolean_retrieval_app.py:67-75 | the postfix form is a permutation of the query words with the terms in their original order |
| ShuntingYard.ShuntKeepsStackIncreasing | boolean_retrieval_app.py:69-71 | the operator stack stays strictly increasing in precedence from bottom to top |
| ShuntingYard.ShuntFromTermsOnly | boolean_retrieval_app.py:72-73 | words without operators are output unchanged, in order |
| ShuntingYard.PostfixOfBinary | boolean_retrieval_app.py:67-75 | `a k b` becomes `a b k` |
| ShuntingYard.AndBindsTighterAfterOr | boolean_retrieval_app.py:48-55 | `a OR b AND c` becomes `a b c AND OR` |
| ShuntingYard.AndBindsTighterBeforeOr | boolean_retrieval_app.py:69-71 | `a AND b OR c` becomes `a b AND c OR` |
| ShuntingYard.EqualPrecedenceAssociatesLeft | boolean_retrieval_app.py:69 | `a k b k c` becomes `a b k c k`, because `>=` pops an equal operator |
| ShuntingYard.SecondOrPopsTopFirst | boolean_retrieval_app.py:69-70 | in `a OR b AND c OR d` the second OR pops AND and then the first OR, top first, giving `a b c AND OR d OR` |
| Retrieval.ApplyOperator | boolean_retrieval_app.py:57-64 | the combination never holds a document that neither operand holds |
| Retrieval.QueryTokens | boolean_retrieval_app.py:43 | one token per word of the uppercased query, an operator exactly where the word is AND, OR or NOT, and a term carrying the word otherwise |
| Retrieval.TermPostings | boolean_retrieval_app.py:89 | `index.get(token.lower(), set())`: a term whose lowercase form is not a key stands for the empty set; `Retrieval.TermPostingsOfUpper` relates it to the query word |
| Retrieval.EvalStep | boolean_retrieval_app.py:80-89 | a step fails exactly on NOT or on AND/OR with fewer than two operands; a term pushes one set, AND/OR replace the two top sets by one, and the sets below are kept |
| Retrieval.EvalFrom | boolean_retrieval_app.py:79-89 | the evaluation loop from a given stack; `Retrieval.EvalFromDepth`, `Retrieval.EvalFromWithinPostings` and `Retrieval.EvalFromFailsOnNot` give its final depth, its bound and its failure on NOT |
| Retrieval.EvalPostfix | boolean_retrieval_app.py:78-91 | `stack[0] if stack else set()` after the loop; `Retrieval.EvaluatePostfix` is the loop proved equal to it and `Retrieval.PostfixResultWithinPostings` bounds it |
| Retrieval.Retrieve | boolean_retrieval_app.py:29-91 | the answer to a query; `Retrieval.BooleanRetrieval` is the method proved equal to it, and the query lemmas below state its answers |
| Retrieval.EvaluatePostfix | boolean_retrieval_app.py:78-91 | the loop's answer equals `EvalPostfix`; success only names indexed documents; a NOT in the postfix form always fails |
| Retrieval.BooleanRetrieval | boolean_retrieval_app.py:29-91 | the answer equals `Retrieve`; success only names indexed documents; a query with the word NOT fails |
| Retrieval.EvalFromWithinPostings | boolean_retrieval_app.py:79-89 | every set on the evaluation stack only names documents of the index |
| Retrieval.PostfixResultWithinPostings | boolean_retrieval_app.py:91 | a successful evaluation only names documents of the index |
| Retrieval.EvalFromFailsOnNot | boolean_retrieval_app.py:81-83 | once a NOT remains to be evaluated, the evaluation fails |
| Retrieval.QueryWithNotFails | boolean_retrieval_app.py:81-83 | every query whose uppercased words include NOT fails |
| Retrieval.NotInAnyCaseFails | boolean_retrieval_app.py:43 | a query word reading NOT in any case makes the query fail |
| Retrieval.ResultWithinDocs | boolean_retrieval_app.py:29-91 | over an index built from a collection, every answer names only documents of that collection |
| Retrieval.EvalFromDepth | boolean_retrieval_app.py:79-89 | the final stack depth is the start depth plus the terms minus the operators, and is non-zero after an operator |
| Retrieval.TooFewOperandsFails | boolean_retrieval_app.py:85-86 | a query with an operator and no more terms than operators fails (`AND cats`) |
| Retrieval.EvalFromTermsOnly | boolean_retrieval_app.py:88-89 | terms alone push their posting sets in order and never fail |
| Retrieval.TermPostingsOfUpper | boolean_retrieval_app.py:89 | an uppercased query term looks up the postings of the lowercased word |
| Retrieval.QueryTokensOfWords | boolean_retrieval_app.py:43 | the tokens are the query's own words, uppercased and classified one by one |
| Retrieval.TermsOnlyQueryAnswersFirstTerm | boolean_retrieval_app.py:91 | a query of terms alone answers with the postings of its first term; the rest are ignored |
| Retrieval.TwoTermQueryAnswersFirst | boolean_retrieval_app.py:43-91 | the query `a b` answers with the postings of `a`, the first word, and `b` is left unused on the stack |
| Retrieval.SingleWordQuery | boolean_retrieval_app.py:89-91 | a one-word query answers with exactly the documents containing the word, in any case |
| Retrieval.BlankQueryAnswersNothing | boolean_retrieval_app.py:91 | an empty or blank query answers with the empty set |
| Retrieval.QueryIgnoresCase | boolean_retrieval_app.py:43 | queries equal up to case have the same answer |
| Retrieval.EvalBinary | boolean_retrieval_app.py:78-91 | `a b k` evaluates to a k b |
| Retrieval.EvalTwoOperators | boolean_retrieval_app.py:78-91 | `a b k1 c k2` evaluates to (a k1 b) k2 c |
| Retrieval.EvalOrOfAnd | boolean_retrieval_app.py:78-91 | `a b c AND OR` evaluates to a ∪ (b ∩ c) |
| Retrieval.EvalAndThenOr | boolean_retrieval_app.py:78-91 | `a b AND c OR` evaluates to (a ∩ b) ∪ c |
| Retrieval.EvalLeftChain | boolean_retrieval_app.py:78-91 | `a b k c k` evaluates to (a k b) k c |
| Retrieval.FiveWordTokens | boolean_retrieval_app.py:43 | a five-word query with terms in odd places tokenizes to those terms and two classified words |
| Retrieval.BinaryQuery | boolean_retrieval_app.py:29-91 | `a AND b` answers a ∩ b and `a OR b` answers a ∪ b, over the postings of the lowercased words |
| Retrieval.PostingsOfWord | boolean_retrieval_app.py:89 | over an index built from a collection, a word's postings are exactly the documents having it as a term |
| Retrieval.BinaryQueryOverDocs | boolean_retrieval_app.py:29-91 | over an index built from a collection, `a AND b` answers the documents containing both words and `a OR b` those containing either |
| Retrieval.ApplyOperatorCommutes | boolean_retrieval_app.py:57-61 | AND and OR do not depend on the order of their operands |
| Retrieval.BinaryQueryCommutes | boolean_retrieval_app.py:29-91 | `a AND b` and `b AND a` have the same answer, and so have `a OR b` and `b OR a` |
| Retrieval.OrOfAndQuery | boolean_retrieval_app.py:29-91 | `a OR b AND c` answers a ∪ (b ∩ c) |
| Retrieval.AndThenOrQuery | boolean_retrieval_app.py:29-91 | `a AND b OR c` answers (a ∩ b) ∪ c |
| Retrieval.ChainAssociatesLeftQuery | boolean_retrieval_app.py:29-91 | `a AND b AND c` and `a OR b OR c` combine from the left |
| CorrectedNot.IntendedFromAgrees | boolean_retrieval_app.py:78-89 | without NOT, the corrected evaluation equals the evaluation as written |
| CorrectedNot.IntendedAgreesWithoutNot | boolean_retrieval_app.py:29-91 | the correction changes no answer to a query without the word NOT |
| CorrectedNot.IntendedFromWithinUniverse | boolean_retrieval_app.py:83 | with the corrected NOT, every stacked set lies within the set of all document ids |
| CorrectedNot.IntendedWithinUniverse | boolean_retrieval_app.py:83 | every corrected answer lies within the set of all document ids |
| CorrectedNot.IntendedStep | boolean_retrieval_app.py:81-83 | the corrected NOT fails only on an empty stack and otherwise replaces the top set by its complement within the universe, keeping the sets below; `CorrectedNot.IntendedFromAgrees` shows every other token steps as written |
| CorrectedNot.IntendedRetrieve | boolean_retrieval_app.py:29-91 | the answer with the corrected NOT; `CorrectedNot.IntendedAgreesWithoutNot` and `CorrectedNot.IntendedWithinUniverse` relate it to `Retrieve` and bound it |
| CorrectedNot.IntendedEvalNot | boolean_retrieval_app.py:81-83 | with the corrected NOT, `a NOT` evaluates to all ids minus the postings of a |
| CorrectedNot.PostfixOfNot | boolean_retrieval_app.py:67-75 | `NOT a` becomes `a NOT` |
| CorrectedNot.PostfixOfAndNot | boolean_retrieval_app.py:48-55 | `a AND NOT b` becomes `a b NOT AND` |
| CorrectedNot.IntendedNotQuery | boolean_retrieval_app.py:81-83 | with the corrected NOT, `NOT a` answers with all documents not containing a |
| CorrectedNot.IntendedEvalAndNot | boolean_retrieval_app.py:81-87 | `a b NOT AND` evaluates to a ∩ (all ids \ b) |
| CorrectedNot.IntendedAndNotQuery | boolean_retrieval_app.py:81-87 | with the corrected NOT, `a AND NOT b` answers with the documents containing a but not b |

## Left out

- The Streamlit page (`main`, lines 94-154): document entry, file upload and result display are user interface, not part of the engine.
- Unicode: `\w`, `lower()`, `upper()` and `split()` are modelled on ASCII only. Non-ASCII letters, digits and whitespace, and case mappings that change length, are not modelled.
- Exception types: `IndexError` from popping an empty stack and `AttributeError` from `lower()` on a set are one `Failure`.
- Order: dictionary and set iteration order is not modelled. The builder picks documents and terms in an arbitrary order, and `IndexIsUnique` shows the result does not depend on it.
- The `defaultdict`: the index is a plain map, and `Lookup` stands for `index.get(w, set())`. Lookups through `.get` insert nothing, so nothing is lost.
- Dead code: the NOT branch of `apply_operator` and the 0 returned by `precedence` for a non-keyword are never reached; the model keeps the first and omits the second.
- Retrieval.BooleanRetrieval: the set of all document ids is a parameter that no answer depends on, since it is used only by the NOT branch, which always raises.
- CorrectedNot.IntendedRetrieve keeps the conversion as written, so NOT is still popped by a following NOT (`NOT NOT a` still fails).

## Findings

| source | as written | input that shows it | evidently intended | confidence | as-written member | corrected member |
|---|---|---|---|---|---|---|
| boolean_retrieval_app.py:81-83 | NOT pops the stack, which raises when the stack is empty (`NOT`, `NOT NOT a`), and otherwise calls `lower()` on the popped posting set, which raises too, so every query containing NOT fails | query `NOT dogs` over any index | all document ids minus the postings of the operand | high; not executed | Retrieval.QueryWithNotFails | CorrectedNot.IntendedNotQuery |
