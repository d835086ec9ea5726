/** Boolean retrieval: a query is uppercased, split on whitespace, converted
    to postfix order and evaluated over a stack of posting sets. */
module Retrieval {
  import opened Text
  import opened Tokenizer
  import opened InvertedIndex
  import opened ShuntingYard

  /** The outcome of a query: the matching documents, or an exception raised
      during evaluation (a pop from an empty stack, or a method call on a set). */
  datatype Result<T> = Success(value: T) | Failure

  /** `query.upper().split()`, each word classified as an operator or a term. */
  function QueryTokens(query: string): (toks: seq<Tok>)
    ensures |toks| == |Split(Upper(query))|
    ensures forall i :: 0 <= i < |toks| ==> (toks[i].Op? <==> IsKeyword(Split(Upper(query))[i]))
    ensures forall i :: 0 <= i < |toks| ==> toks[i].Term? ==> toks[i].text == Split(Upper(query))[i]
  {
    var words := Split(Upper(query));
    seq(|words|, i requires 0 <= i < |words| => Classify(words[i]))
  }

  /** `apply_operator`: AND intersects, OR unites; its NOT branch is never
      reached, because NOT is handled before it is called. The result never
      holds a document that neither operand holds. */
  function ApplyOperator(k: OpKind, left: set<DocId>, right: set<DocId>): (r: set<DocId>)
    ensures r <= left + right
  {
    match k
    case And => left * right
    case Or => left + right
    case Not => left - right
  }

  /** The posting set a query term stands for: the term is lowercased and
      looked up, an unknown term giving the empty set. */
  function TermPostings(index: Index, w: string): (s: set<DocId>)
    ensures Lower(w) !in index ==> s == {}
  {
    Lookup(index, Lower(w))
  }

  /** One word of the postfix evaluation, over a stack of posting sets whose
      top is at the end. */
  function EvalStep(index: Index, stack: seq<set<DocId>>, t: Tok): (r: Result<seq<set<DocId>>>)
    ensures r.Failure? <==> t == Op(Not) || (t.Op? && |stack| < 2)
    ensures r.Success? && t.Term? ==> |r.value| == |stack| + 1 && r.value[..|stack|] == stack
    ensures r.Success? && t.Op? ==> |r.value| == |stack| - 1 && r.value[..|stack| - 2] == stack[..|stack| - 2]
  {
    match t
    case Term(w) => Success(stack + [TermPostings(index, w)])
    case Op(Not) =>
      // stack.pop() raises on an empty stack; otherwise the popped operand is
      // a set, and calling lower() on it raises
      Failure
    case Op(k) =>
      if |stack| < 2 then Failure
      else Success(DropLast(DropLast(stack)) + [ApplyOperator(k, stack[|stack| - 2], Last(stack))])
  }

  /** The stack left by evaluating the remaining words from the given stack. */
  function EvalFrom(index: Index, stack: seq<set<DocId>>, toks: seq<Tok>): Result<seq<set<DocId>>>
    decreases |toks|
  {
    if toks == [] then Success(stack)
    else
      match EvalStep(index, stack, toks[0])
      case Failure => Failure
      case Success(next) => EvalFrom(index, next, toks[1..])
  }

  /** `stack[0] if stack else set()`: the bottom of the final stack, whatever
      lies above it. */
  function EvalPostfix(index: Index, postfix: seq<Tok>): Result<set<DocId>> {
    match EvalFrom(index, [], postfix)
    case Failure => Failure
    case Success(stack) => Success(if stack == [] then {} else stack[0])
  }

  /** The answer to a query. The universe of all document ids is used only by
      the NOT branch, which never completes, so it never affects the answer. */
  function Retrieve(index: Index, query: string, universe: set<DocId>): Result<set<DocId>> {
    EvalPostfix(index, Postfix(QueryTokens(query)))
  }

  /** The evaluation loop: a term pushes its posting set; AND and OR pop the
      right and then the left operand and push their combination; NOT always
      raises. */
  method EvaluatePostfix(index: Index, postfix: seq<Tok>) returns (r: Result<set<DocId>>)
    ensures r == EvalPostfix(index, postfix)
    ensures r.Success? ==> r.value <= Postings(index)
    ensures Op(Not) in postfix ==> r == Failure
  {
    var stack: seq<set<DocId>> := [];
    for i := 0 to |postfix|
      invariant EvalFrom(index, stack, postfix[i..]) == EvalFrom(index, [], postfix)
    {
      assert postfix[i..][1..] == postfix[i + 1..];
      match postfix[i] {
        case Term(w) =>
          stack := stack + [Lookup(index, Lower(w))];
        case Op(k) =>
          if k == Not {
            // an empty stack makes pop() raise; a non-empty one yields a set,
            // whose missing lower() raises
            return Failure;
          }
          if stack == [] {
            return Failure;
          }
          var right := Last(stack);
          stack := DropLast(stack);
          if stack == [] {
            return Failure;
          }
          var left := Last(stack);
          stack := DropLast(stack);
          stack := stack + [ApplyOperator(k, left, right)];
      }
    }
    r := Success(if stack == [] then {} else stack[0]);
    PostfixResultWithinPostings(index, postfix);
    EvalFromFailsOnNot(index, [], postfix);
  }

  /** `boolean_retrieval`: lexing, the shunting-yard conversion, then the
      postfix evaluation. */
  method BooleanRetrieval(index: Index, query: string, allDocIds: set<DocId>) returns (r: Result<set<DocId>>)
    ensures r == Retrieve(index, query, allDocIds)
    ensures r.Success? ==> r.value <= Postings(index)
    ensures "NOT" in Split(Upper(query)) ==> r == Failure
  {
    var tokens := QueryTokens(query);
    var output := ToPostfix(tokens);
    r := EvaluatePostfix(index, output);
    QueryWithNotFails(index, query, allDocIds);
  }

  /** Every set the evaluation pushes is a posting set or a combination of
      posting sets, so it only names documents of the index. */
  lemma {:induction false} EvalFromWithinPostings(index: Index, stack: seq<set<DocId>>, toks: seq<Tok>)
    requires forall i :: 0 <= i < |stack| ==> stack[i] <= Postings(index)
    ensures EvalFrom(index, stack, toks).Success? ==>
      forall i :: 0 <= i < |EvalFrom(index, stack, toks).value| ==>
        EvalFrom(index, stack, toks).value[i] <= Postings(index)
    decreases |toks|
  {
    if toks != [] {
      match EvalStep(index, stack, toks[0]) {
        case Failure =>
        case Success(next) =>
          if toks[0].Term? {
            LookupWithinPostings(index, Lower(toks[0].text));
          }
          assert forall i :: 0 <= i < |next| ==> next[i] <= Postings(index);
          EvalFromWithinPostings(index, next, toks[1..]);
      }
    }
  }

  /** A successful evaluation only names documents of the index. */
  lemma PostfixResultWithinPostings(index: Index, postfix: seq<Tok>)
    ensures EvalPostfix(index, postfix).Success? ==> EvalPostfix(index, postfix).value <= Postings(index)
  {
    EvalFromWithinPostings(index, [], postfix);
  }

  /** Once a NOT is among the remaining words, the evaluation fails. */
  lemma {:induction false} EvalFromFailsOnNot(index: Index, stack: seq<set<DocId>>, toks: seq<Tok>)
    ensures Op(Not) in toks ==> EvalFrom(index, stack, toks) == Failure
    decreases |toks|
  {
    if toks != [] && toks[0] != Op(Not) {
      if EvalStep(index, stack, toks[0]).Success? {
        assert Op(Not) in toks ==> Op(Not) in toks[1..];
        EvalFromFailsOnNot(index, EvalStep(index, stack, toks[0]).value, toks[1..]);
      }
    }
  }

  /** Every query with a NOT keyword, in any case, fails: the evaluation stack
      only ever holds sets, so NOT either pops from an empty stack or calls
      lower() on a set. */
  lemma QueryWithNotFails(index: Index, query: string, universe: set<DocId>)
    ensures "NOT" in Split(Upper(query)) ==> Retrieve(index, query, universe) == Failure
  {
    var words := Split(Upper(query));
    var toks := QueryTokens(query);
    if "NOT" in words {
      var i :| 0 <= i < |words| && words[i] == "NOT";
      assert toks[i] == Op(Not);
      PostfixIsPermutation(toks);
      assert Op(Not) in multiset(Postfix(toks));
      EvalFromFailsOnNot(index, [], Postfix(toks));
    }
  }

  /** Every successful answer only names documents of the index and, when the
      index was built from a collection, documents of that collection. */
  lemma ResultWithinDocs(index: Index, docs: map<DocId, string>, query: string, universe: set<DocId>)
    requires IsIndexOf(index, docs)
    ensures Retrieve(index, query, universe).Success? ==>
      Retrieve(index, query, universe).value <= Postings(index) <= docs.Keys
  {
    PostfixResultWithinPostings(index, Postfix(QueryTokens(query)));
    IndexWithinDocs(index, docs);
  }

  /** A word of the query that reads NOT in any case fails the query. */
  lemma NotInAnyCaseFails(index: Index, query: string, universe: set<DocId>, w: string)
    requires w in Split(query) && Upper(w) == "NOT"
    ensures Retrieve(index, query, universe) == Failure
  {
    SplitOfUpper(query);
    var i :| 0 <= i < |Split(query)| && Split(query)[i] == w;
    assert Split(Upper(query))[i] == "NOT";
    QueryWithNotFails(index, query, universe);
  }

  /** The number of operators among toks. */
  function OperatorCount(toks: seq<Tok>): nat {
    |toks| - |TermsOf(toks)|
  }

  /** Each term adds one set to the stack and each AND or OR replaces two by
      one, so after an operator the stack is never empty. */
  lemma {:induction false} EvalFromDepth(index: Index, stack: seq<set<DocId>>, toks: seq<Tok>)
    ensures EvalFrom(index, stack, toks).Success? ==>
      && |EvalFrom(index, stack, toks).value| + OperatorCount(toks) == |stack| + |TermsOf(toks)|
      && (OperatorCount(toks) > 0 ==> |EvalFrom(index, stack, toks).value| >= 1)
    decreases |toks|
  {
    if toks != [] {
      assert toks == [toks[0]] + toks[1..];
      TermsOfAppend([toks[0]], toks[1..]);
      assert [] + [toks[0]] == [toks[0]];
      TermsOfPush([], toks[0]);
      if EvalStep(index, stack, toks[0]).Success? {
        EvalFromDepth(index, EvalStep(index, stack, toks[0]).value, toks[1..]);
      }
    }
  }

  /** A query with at least one operator and no more terms than operators
      fails: some AND or OR finds fewer than two operands (`AND cats`). */
  lemma TooFewOperandsFails(index: Index, query: string, universe: set<DocId>)
    requires OperatorCount(QueryTokens(query)) > 0
    requires |TermsOf(QueryTokens(query))| <= OperatorCount(QueryTokens(query))
    ensures Retrieve(index, query, universe) == Failure
  {
    var toks := QueryTokens(query);
    PostfixIsPermutation(toks);
    EvalFromDepth(index, [], Postfix(toks));
  }

  /** Terms alone push their posting sets in order and never fail. */
  lemma {:induction false} EvalFromTermsOnly(index: Index, stack: seq<set<DocId>>, toks: seq<Tok>)
    requires forall i :: 0 <= i < |toks| ==> toks[i].Term?
    ensures EvalFrom(index, stack, toks).Success?
    ensures |EvalFrom(index, stack, toks).value| == |stack| + |toks|
    ensures EvalFrom(index, stack, toks).value[..|stack|] == stack
    ensures toks != [] ==> EvalFrom(index, stack, toks).value[|stack|] == TermPostings(index, toks[0].text)
    decreases |toks|
  {
    if toks == [] {
      assert stack[..|stack|] == stack;
    } else {
      var next := stack + [TermPostings(index, toks[0].text)];
      EvalFromTermsOnly(index, next, toks[1..]);
      var st := EvalFrom(index, stack, toks).value;
      assert st[..|next|] == next;
      assert st[..|stack|] == next[..|stack|];
    }
  }

  lemma TermPostingsOfUpper(index: Index, w: string)
    ensures TermPostings(index, Upper(w)) == Lookup(index, Lower(w))
  {
    LowerOfUpper(w);
  }

  /** The tokens of a query, from its own words. */
  lemma QueryTokensOfWords(query: string)
    ensures |QueryTokens(query)| == |Split(query)|
    ensures forall i :: 0 <= i < |Split(query)| ==> QueryTokens(query)[i] == Classify(Upper(Split(query)[i]))
  {
    SplitOfUpper(query);
  }

  /** Leftover operands are not an error: a query of terms alone answers with
      the posting set of its first term, the rest staying unused on the stack
      (`a b` gives the postings of `a`). */
  lemma TermsOnlyQueryAnswersFirstTerm(index: Index, query: string, universe: set<DocId>)
    requires Split(query) != []
    requires forall w :: w in Split(query) ==> !IsKeyword(Upper(w))
    ensures Retrieve(index, query, universe) == Success(Lookup(index, Lower(Split(query)[0])))
  {
    var toks := QueryTokens(query);
    QueryTokensOfWords(query);
    assert forall i :: 0 <= i < |toks| ==> toks[i].Term?;
    ShuntFromTermsOnly([], toks);
    assert Postfix(toks) == toks;
    EvalFromTermsOnly(index, [], toks);
    TermPostingsOfUpper(index, Split(query)[0]);
  }

  /** `a b`: the second operand is left on the stack unused, and the answer
      is the postings of the first word, not of the second. */
  lemma TwoTermQueryAnswersFirst(index: Index, universe: set<DocId>, a: string, c: char, b: string)
    requires IsWord(a) && IsWord(b) && IsSpace(c)
    requires !IsKeyword(Upper(a)) && !IsKeyword(Upper(b))
    ensures Retrieve(index, a + [c] + b, universe) == Success(Lookup(index, Lower(a)))
  {
    SplitLeadingWord(a, c, b);
    SplitSingleWord(b);
    assert Split(a + [c] + b) == [a, b];
    TermsOnlyQueryAnswersFirstTerm(index, a + [c] + b, universe);
  }

  /** The answer to a one-word query is the set of documents that contain the
      word as a whole word, in any case; an unknown word gives the empty set. */
  lemma SingleWordQuery(index: Index, docs: map<DocId, string>, query: string, universe: set<DocId>, w: string)
    requires IsIndexOf(index, docs)
    requires Split(query) == [w] && !IsKeyword(Upper(w))
    ensures Retrieve(index, query, universe) == Success(set d | d in docs && Lower(w) in Tokenize(docs[d]))
  {
    TermsOnlyQueryAnswersFirstTerm(index, query, universe);
    var found := set d | d in docs && Lower(w) in Tokenize(docs[d]);
    assert Lookup(index, Lower(w)) == found;
  }

  /** An empty or blank query has no words and answers with the empty set. */
  lemma BlankQueryAnswersNothing(index: Index, query: string, universe: set<DocId>)
    requires forall i :: 0 <= i < |query| ==> IsSpace(query[i])
    ensures Retrieve(index, query, universe) == Success({})
  {
    NoRunsWithoutMatch(Upper(query), IsNonSpace, 0);
    assert QueryTokens(query) == [];
  }

  /** Operator keywords and terms are matched ignoring case: queries that agree
      up to case have the same answer (`cats and DOGS`, `CATS AND dogs`). */
  lemma QueryIgnoresCase(index: Index, q1: string, q2: string, universe: set<DocId>)
    requires Lower(q1) == Lower(q2)
    ensures Retrieve(index, q1, universe) == Retrieve(index, q2, universe)
  {
    UpperIgnoresCase(q1, q2);
  }

  lemma EvalPushTerm(index: Index, stack: seq<set<DocId>>, t: Tok, rest: seq<Tok>)
    requires t.Term?
    ensures EvalFrom(index, stack, [t] + rest) == EvalFrom(index, stack + [TermPostings(index, t.text)], rest)
  {
    assert ([t] + rest)[1..] == rest;
  }

  lemma EvalApply(index: Index, stack: seq<set<DocId>>, left: set<DocId>, right: set<DocId>, k: OpKind, rest: seq<Tok>)
    requires k != Not
    ensures EvalFrom(index, stack + [left, right], [Op(k)] + rest)
         == EvalFrom(index, stack + [ApplyOperator(k, left, right)], rest)
  {
    assert ([Op(k)] + rest)[1..] == rest;
    assert DropLast(DropLast(stack + [left, right])) == stack;
  }

  /** `a b k` evaluates to a k b. */
  lemma EvalBinary(index: Index, a: Tok, b: Tok, k: OpKind)
    requires a.Term? && b.Term? && k != Not
    ensures EvalPostfix(index, [a, b, Op(k)])
         == Success(ApplyOperator(k, TermPostings(index, a.text), TermPostings(index, b.text)))
  {
    var pa, pb := TermPostings(index, a.text), TermPostings(index, b.text);
    assert [a, b, Op(k)] == [a] + [b, Op(k)];
    EvalPushFirst(index, a, [b, Op(k)]);
    assert [b, Op(k)] == [b] + [Op(k)];
    EvalPushSecond(index, pa, b, [Op(k)]);
    assert [Op(k)] == [Op(k)] + [];
    EvalApplyToPair(index, pa, pb, k, []);
  }

  /** From a stack [x, y], `c k1 k2` leaves x k2 (y k1 c). */
  lemma EvalTermThenTwoOperators(index: Index, x: set<DocId>, y: set<DocId>, c: Tok, k1: OpKind, k2: OpKind)
    requires c.Term? && k1 != Not && k2 != Not
    ensures EvalFrom(index, [x, y], [c, Op(k1), Op(k2)])
         == Success([ApplyOperator(k2, x, ApplyOperator(k1, y, TermPostings(index, c.text)))])
  {
    var pc := TermPostings(index, c.text);
    assert [Op(k2)] == [Op(k2)] + [];
    EvalApplyToPair(index, x, ApplyOperator(k1, y, pc), k2, []);
    EvalInnerOperator(index, x, y, pc, k1, k2);
    EvalPushThird(index, x, y, c, [Op(k1), Op(k2)]);
  }

  lemma EvalPushThird(index: Index, x: set<DocId>, y: set<DocId>, c: Tok, rest: seq<Tok>)
    requires c.Term?
    ensures EvalFrom(index, [x, y], [c] + rest) == EvalFrom(index, [x, y, TermPostings(index, c.text)], rest)
  {
    assert ([c] + rest)[1..] == rest;
    assert [x, y] + [TermPostings(index, c.text)] == [x, y, TermPostings(index, c.text)];
  }

  lemma EvalInnerOperator(index: Index, x: set<DocId>, y: set<DocId>, z: set<DocId>, k1: OpKind, k2: OpKind)
    requires k1 != Not
    ensures EvalFrom(index, [x, y, z], [Op(k1), Op(k2)]) == EvalFrom(index, [x, ApplyOperator(k1, y, z)], [Op(k2)])
  {
    assert [Op(k1), Op(k2)][1..] == [Op(k2)];
    assert DropLast(DropLast([x, y, z])) + [ApplyOperator(k1, y, z)] == [x, ApplyOperator(k1, y, z)];
  }

  lemma EvalPushFirst(index: Index, a: Tok, rest: seq<Tok>)
    requires a.Term?
    ensures EvalFrom(index, [], [a] + rest) == EvalFrom(index, [TermPostings(index, a.text)], rest)
  {
    EvalPushTerm(index, [], a, rest);
    assert [] + [TermPostings(index, a.text)] == [TermPostings(index, a.text)];
  }

  lemma EvalPushSecond(index: Index, x: set<DocId>, b: Tok, rest: seq<Tok>)
    requires b.Term?
    ensures EvalFrom(index, [x], [b] + rest) == EvalFrom(index, [x, TermPostings(index, b.text)], rest)
  {
    EvalPushTerm(index, [x], b, rest);
    assert [x] + [TermPostings(index, b.text)] == [x, TermPostings(index, b.text)];
  }

  lemma EvalApplyToPair(index: Index, x: set<DocId>, y: set<DocId>, k: OpKind, rest: seq<Tok>)
    requires k != Not
    ensures EvalFrom(index, [x, y], [Op(k)] + rest) == EvalFrom(index, [ApplyOperator(k, x, y)], rest)
  {
    EvalApply(index, [], x, y, k, rest);
    assert [] + [x, y] == [x, y];
    assert [] + [ApplyOperator(k, x, y)] == [ApplyOperator(k, x, y)];
  }

  /** `a b c AND OR` evaluates to a ∪ (b ∩ c). */
  lemma EvalOrOfAnd(index: Index, a: Tok, b: Tok, c: Tok)
    requires a.Term? && b.Term? && c.Term?
    ensures EvalPostfix(index, [a, b, c, Op(And), Op(Or)])
         == Success(TermPostings(index, a.text) + (TermPostings(index, b.text) * TermPostings(index, c.text)))
  {
    var pa := TermPostings(index, a.text);
    assert [a, b, c, Op(And), Op(Or)] == [a] + [b, c, Op(And), Op(Or)];
    EvalPushFirst(index, a, [b, c, Op(And), Op(Or)]);
    assert [b, c, Op(And), Op(Or)] == [b] + [c, Op(And), Op(Or)];
    EvalPushSecond(index, pa, b, [c, Op(And), Op(Or)]);
    EvalTermThenTwoOperators(index, pa, TermPostings(index, b.text), c, And, Or);
  }

  /** `a b k1 c k2` evaluates to (a k1 b) k2 c. */
  lemma EvalTwoOperators(index: Index, a: Tok, b: Tok, c: Tok, k1: OpKind, k2: OpKind)
    requires a.Term? && b.Term? && c.Term? && k1 != Not && k2 != Not
    ensures EvalPostfix(index, [a, b, Op(k1), c, Op(k2)])
         == Success(ApplyOperator(k2, ApplyOperator(k1, TermPostings(index, a.text), TermPostings(index, b.text)),
                                  TermPostings(index, c.text)))
  {
    var pa := TermPostings(index, a.text);
    assert [a, b, Op(k1), c, Op(k2)] == [a] + [b, Op(k1), c, Op(k2)];
    EvalPushFirst(index, a, [b, Op(k1), c, Op(k2)]);
    assert [b, Op(k1), c, Op(k2)] == [b] + [Op(k1), c, Op(k2)];
    EvalPushSecond(index, pa, b, [Op(k1), c, Op(k2)]);
    EvalOperatorThenTerm(index, pa, TermPostings(index, b.text), c, k1, k2);
  }

  /** From a stack [x, y], `k1 c k2` leaves (x k1 y) k2 c. */
  lemma EvalOperatorThenTerm(index: Index, x: set<DocId>, y: set<DocId>, c: Tok, k1: OpKind, k2: OpKind)
    requires c.Term? && k1 != Not && k2 != Not
    ensures EvalFrom(index, [x, y], [Op(k1), c, Op(k2)])
         == Success([ApplyOperator(k2, ApplyOperator(k1, x, y), TermPostings(index, c.text))])
  {
    var xy := ApplyOperator(k1, x, y);
    assert [Op(k1), c, Op(k2)] == [Op(k1)] + [c, Op(k2)];
    EvalApplyToPair(index, x, y, k1, [c, Op(k2)]);
    assert [c, Op(k2)] == [c] + [Op(k2)];
    EvalPushSecond(index, xy, c, [Op(k2)]);
    assert [Op(k2)] == [Op(k2)] + [];
    EvalApplyToPair(index, xy, TermPostings(index, c.text), k2, []);
  }

  /** `a b AND c OR` evaluates to (a ∩ b) ∪ c. */
  lemma EvalAndThenOr(index: Index, a: Tok, b: Tok, c: Tok)
    requires a.Term? && b.Term? && c.Term?
    ensures EvalPostfix(index, [a, b, Op(And), c, Op(Or)])
         == Success((TermPostings(index, a.text) * TermPostings(index, b.text)) + TermPostings(index, c.text))
  {
    EvalTwoOperators(index, a, b, c, And, Or);
  }

  /** `a b k c k` evaluates to (a k b) k c. */
  lemma EvalLeftChain(index: Index, a: Tok, b: Tok, c: Tok, k: OpKind)
    requires a.Term? && b.Term? && c.Term? && k != Not
    ensures EvalPostfix(index, [a, b, Op(k), c, Op(k)])
         == Success(ApplyOperator(k, ApplyOperator(k, TermPostings(index, a.text), TermPostings(index, b.text)),
                                  TermPostings(index, c.text)))
  {
    EvalTwoOperators(index, a, b, c, k, k);
  }

  lemma ClassifyThree(toks: seq<Tok>, words: seq<string>, a: string, k: string, b: string)
    requires |toks| == |words| && forall i :: 0 <= i < |words| ==> toks[i] == Classify(Upper(words[i]))
    requires words == [a, k, b]
    requires !IsKeyword(Upper(a)) && !IsKeyword(Upper(b))
    ensures toks == [Term(Upper(a)), Classify(Upper(k)), Term(Upper(b))]
  {
    assert toks[0] == Classify(Upper(words[0]));
    assert toks[1] == Classify(Upper(words[1]));
    assert toks[2] == Classify(Upper(words[2]));
  }

  /** The two-term query `a AND b` answers with a ∩ b, and `a OR b` with
      a ∪ b, the keyword in any case. */
  lemma BinaryQuery(index: Index, query: string, universe: set<DocId>, a: string, o: string, b: string, k: OpKind)
    requires Split(query) == [a, o, b]
    requires k != Not && Classify(Upper(o)) == Op(k)
    requires !IsKeyword(Upper(a)) && !IsKeyword(Upper(b))
    ensures Retrieve(index, query, universe)
         == Success(ApplyOperator(k, Lookup(index, Lower(a)), Lookup(index, Lower(b))))
  {
    var A, B := Term(Upper(a)), Term(Upper(b));
    QueryTokensOfWords(query);
    ClassifyThree(QueryTokens(query), Split(query), a, o, b);
    PostfixOfBinary(A, B, k);
    EvalBinary(index, A, B, k);
    TermPostingsOfUpper(index, a);
    TermPostingsOfUpper(index, b);
  }

  /** The posting set of a word is the set of documents having it as a term. */
  lemma PostingsOfWord(index: Index, docs: map<DocId, string>, w: string)
    requires IsIndexOf(index, docs)
    ensures Lookup(index, w) == set d | d in docs && w in Tokenize(docs[d])
  {
    var found := set d | d in docs && w in Tokenize(docs[d]);
    forall d
      ensures d in Lookup(index, w) <==> d in found
    {
    }
  }

  /** Over the index of a collection, `a AND b` answers with the documents
      containing both words and `a OR b` with those containing either. */
  lemma BinaryQueryOverDocs(index: Index, docs: map<DocId, string>, query: string, universe: set<DocId>, a: string, o: string, b: string, k: OpKind)
    requires IsIndexOf(index, docs)
    requires Split(query) == [a, o, b]
    requires k != Not && Classify(Upper(o)) == Op(k)
    requires !IsKeyword(Upper(a)) && !IsKeyword(Upper(b))
    ensures k == And ==>
      Retrieve(index, query, universe)
        == Success(set d | d in docs && Lower(a) in Tokenize(docs[d]) && Lower(b) in Tokenize(docs[d]))
    ensures k == Or ==>
      Retrieve(index, query, universe)
        == Success(set d | d in docs && (Lower(a) in Tokenize(docs[d]) || Lower(b) in Tokenize(docs[d])))
  {
    BinaryQuery(index, query, universe, a, o, b, k);
    PostingsOfWord(index, docs, Lower(a));
    PostingsOfWord(index, docs, Lower(b));
    if k == And {
      DocsWithBoth(docs, Lower(a), Lower(b));
    } else {
      DocsWithEither(docs, Lower(a), Lower(b));
    }
  }

  lemma DocsWithBoth(docs: map<DocId, string>, x: string, y: string)
    ensures (set d | d in docs && x in Tokenize(docs[d])) * (set d | d in docs && y in Tokenize(docs[d]))
         == set d | d in docs && x in Tokenize(docs[d]) && y in Tokenize(docs[d])
  {
  }

  lemma DocsWithEither(docs: map<DocId, string>, x: string, y: string)
    ensures (set d | d in docs && x in Tokenize(docs[d])) + (set d | d in docs && y in Tokenize(docs[d]))
         == set d | d in docs && (x in Tokenize(docs[d]) || y in Tokenize(docs[d]))
  {
  }

  lemma ApplyOperatorCommutes(k: OpKind, x: set<DocId>, y: set<DocId>)
    requires k != Not
    ensures ApplyOperator(k, x, y) == ApplyOperator(k, y, x)
  {
  }

  /** AND and OR are commutative: swapping the two terms of a binary query
      does not change its answer. */
  lemma BinaryQueryCommutes(index: Index, q1: string, q2: string, universe: set<DocId>, a: string, o1: string, o2: string, b: string, k: OpKind)
    requires Split(q1) == [a, o1, b] && Split(q2) == [b, o2, a]
    requires k != Not && Classify(Upper(o1)) == Op(k) && Classify(Upper(o2)) == Op(k)
    requires !IsKeyword(Upper(a)) && !IsKeyword(Upper(b))
    ensures Retrieve(index, q1, universe) == Retrieve(index, q2, universe)
  {
    BinaryQuery(index, q1, universe, a, o1, b, k);
    BinaryQuery(index, q2, universe, b, o2, a, k);
    ApplyOperatorCommutes(k, Lookup(index, Lower(a)), Lookup(index, Lower(b)));
  }

  /** The classification of five words whose first, third and fifth are not
      keywords. */
  lemma ClassifyFive(toks: seq<Tok>, words: seq<string>, a: string, k1: string, b: string, k2: string, c: string)
    requires |toks| == |words| && forall i :: 0 <= i < |words| ==> toks[i] == Classify(Upper(words[i]))
    requires words == [a, k1, b, k2, c]
    requires !IsKeyword(Upper(a)) && !IsKeyword(Upper(b)) && !IsKeyword(Upper(c))
    ensures toks == [Term(Upper(a)), Classify(Upper(k1)), Term(Upper(b)), Classify(Upper(k2)), Term(Upper(c))]
  {
    assert toks[0] == Classify(Upper(words[0]));
    assert toks[1] == Classify(Upper(words[1]));
    assert toks[2] == Classify(Upper(words[2]));
    assert toks[3] == Classify(Upper(words[3]));
    assert toks[4] == Classify(Upper(words[4]));
  }

  /** The tokens of a five-word query whose first, third and fifth words are
      terms. */
  lemma FiveWordTokens(query: string, a: string, k1: string, b: string, k2: string, c: string)
    requires Split(query) == [a, k1, b, k2, c]
    requires !IsKeyword(Upper(a)) && !IsKeyword(Upper(b)) && !IsKeyword(Upper(c))
    ensures QueryTokens(query)
         == [Term(Upper(a)), Classify(Upper(k1)), Term(Upper(b)), Classify(Upper(k2)), Term(Upper(c))]
  {
    QueryTokensOfWords(query);
    ClassifyFive(QueryTokens(query), Split(query), a, k1, b, k2, c);
  }

  /** The three-term query `a OR b AND c`, with keywords in any case, answers
      with a ∪ (b ∩ c): AND binds tighter than OR. */
  lemma OrOfAndQuery(index: Index, query: string, universe: set<DocId>, a: string, o: string, b: string, n: string, c: string)
    requires Split(query) == [a, o, b, n, c]
    requires Upper(o) == "OR" && Upper(n) == "AND"
    requires !IsKeyword(Upper(a)) && !IsKeyword(Upper(b)) && !IsKeyword(Upper(c))
    ensures Retrieve(index, query, universe)
         == Success(Lookup(index, Lower(a)) + (Lookup(index, Lower(b)) * Lookup(index, Lower(c))))
  {
    var A, B, C := Term(Upper(a)), Term(Upper(b)), Term(Upper(c));
    FiveWordTokens(query, a, o, b, n, c);
    AndBindsTighterAfterOr(A, B, C);
    EvalOrOfAnd(index, A, B, C);
    TermPostingsOfUpper(index, a);
    TermPostingsOfUpper(index, b);
    TermPostingsOfUpper(index, c);
  }

  /** The three-term query `a AND b OR c` answers with (a ∩ b) ∪ c. */
  lemma AndThenOrQuery(index: Index, query: string, universe: set<DocId>, a: string, n: string, b: string, o: string, c: string)
    requires Split(query) == [a, n, b, o, c]
    requires Upper(n) == "AND" && Upper(o) == "OR"
    requires !IsKeyword(Upper(a)) && !IsKeyword(Upper(b)) && !IsKeyword(Upper(c))
    ensures Retrieve(index, query, universe)
         == Success((Lookup(index, Lower(a)) * Lookup(index, Lower(b))) + Lookup(index, Lower(c)))
  {
    var A, B, C := Term(Upper(a)), Term(Upper(b)), Term(Upper(c));
    FiveWordTokens(query, a, n, b, o, c);
    AndBindsTighterBeforeOr(A, B, C);
    EvalAndThenOr(index, A, B, C);
    TermPostingsOfUpper(index, a);
    TermPostingsOfUpper(index, b);
    TermPostingsOfUpper(index, c);
  }

  /** A chain of one binary operator associates to the left: `a AND b AND c`
      answers with (a ∩ b) ∩ c, and `a OR b OR c` with (a ∪ b) ∪ c. */
  lemma ChainAssociatesLeftQuery(index: Index, query: string, universe: set<DocId>, a: string, k1: string, b: string, k2: string, c: string, k: OpKind)
    requires Split(query) == [a, k1, b, k2, c]
    requires k != Not && Classify(Upper(k1)) == Op(k) && Classify(Upper(k2)) == Op(k)
    requires !IsKeyword(Upper(a)) && !IsKeyword(Upper(b)) && !IsKeyword(Upper(c))
    ensures Retrieve(index, query, universe)
         == Success(ApplyOperator(k, ApplyOperator(k, Lookup(index, Lower(a)), Lookup(index, Lower(b))), Lookup(index, Lower(c))))
  {
    var A, B, C := Term(Upper(a)), Term(Upper(b)), Term(Upper(c));
    FiveWordTokens(query, a, k1, b, k2, c);
    EqualPrecedenceAssociatesLeft(A, B, C, k);
    EvalLeftChain(index, A, B, C, k);
    TermPostingsOfUpper(index, a);
    TermPostingsOfUpper(index, b);
    TermPostingsOfUpper(index, c);
  }
}
