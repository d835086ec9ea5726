/** The evaluation with NOT as it is evidently meant: the complement of its
    operand within the set of all document ids. As written, the NOT branch
    of the evaluation loop pops a posting set and then treats it as a query
    word (it lowercases it and looks it up), which raises; so no query with
    NOT ever succeeds. Everything else is as in the evaluation of the module
    Retrieval, and on queries without NOT the two agree. */
module CorrectedNot {
  import opened Text
  import opened InvertedIndex
  import opened ShuntingYard
  import opened Retrieval

  /** One word of the postfix evaluation, NOT replacing the top of the stack
      by its complement within the universe. */
  function IntendedStep(index: Index, universe: set<DocId>, stack: seq<set<DocId>>, t: Tok): (r: Result<seq<set<DocId>>>)
    ensures t == Op(Not) ==> (r.Failure? <==> stack == [])
    ensures t == Op(Not) && r.Success? ==>
      |r.value| == |stack| && r.value[..|stack| - 1] == stack[..|stack| - 1]
      && Last(r.value) <= universe && Last(r.value) !! Last(stack) && universe <= Last(r.value) + Last(stack)
  {
    match t
    case Op(Not) =>
      if stack == [] then Failure else Success(DropLast(stack) + [universe - Last(stack)])
    case _ => EvalStep(index, stack, t)
  }

  function IntendedFrom(index: Index, universe: set<DocId>, stack: seq<set<DocId>>, toks: seq<Tok>): Result<seq<set<DocId>>>
    decreases |toks|
  {
    if toks == [] then Success(stack)
    else
      match IntendedStep(index, universe, stack, toks[0])
      case Failure => Failure
      case Success(next) => IntendedFrom(index, universe, next, toks[1..])
  }

  function IntendedPostfix(index: Index, universe: set<DocId>, postfix: seq<Tok>): Result<set<DocId>> {
    match IntendedFrom(index, universe, [], postfix)
    case Failure => Failure
    case Success(stack) => Success(if stack == [] then {} else stack[0])
  }

  /** The answer to a query with the intended NOT. */
  function IntendedRetrieve(index: Index, query: string, universe: set<DocId>): Result<set<DocId>> {
    IntendedPostfix(index, universe, Postfix(QueryTokens(query)))
  }

  /** Without NOT among the remaining words, the intended evaluation is the
      evaluation as written. */
  lemma {:induction false} IntendedFromAgrees(index: Index, universe: set<DocId>, stack: seq<set<DocId>>, toks: seq<Tok>)
    requires Op(Not) !in toks
    ensures IntendedFrom(index, universe, stack, toks) == EvalFrom(index, stack, toks)
    decreases |toks|
  {
    if toks != [] {
      assert IntendedStep(index, universe, stack, toks[0]) == EvalStep(index, stack, toks[0]);
      assert Op(Not) !in toks[1..];
      match EvalStep(index, stack, toks[0]) {
        case Failure =>
        case Success(next) =>
          IntendedFromAgrees(index, universe, next, toks[1..]);
      }
    }
  }

  /** The correction changes no answer to a query without a NOT keyword. */
  lemma IntendedAgreesWithoutNot(index: Index, query: string, universe: set<DocId>)
    requires "NOT" !in Split(Upper(query))
    ensures IntendedRetrieve(index, query, universe) == Retrieve(index, query, universe)
  {
    PostfixWithoutNot(query);
    IntendedFromAgrees(index, universe, [], Postfix(QueryTokens(query)));
  }

  lemma PostfixWithoutNot(query: string)
    requires "NOT" !in Split(Upper(query))
    ensures Op(Not) !in Postfix(QueryTokens(query))
  {
    var words := Split(Upper(query));
    var toks := QueryTokens(query);
    PostfixIsPermutation(toks);
    forall i | 0 <= i < |toks|
      ensures toks[i] != Op(Not)
    {
      assert words[i] in words;
    }
    assert Op(Not) !in multiset(toks);
    assert Op(Not) !in multiset(Postfix(toks));
  }

  /** When every indexed document is in the universe, every set the intended
      evaluation pushes lies within the universe. */
  lemma {:induction false} IntendedFromWithinUniverse(index: Index, universe: set<DocId>, stack: seq<set<DocId>>, toks: seq<Tok>)
    requires Postings(index) <= universe
    requires forall i :: 0 <= i < |stack| ==> stack[i] <= universe
    ensures IntendedFrom(index, universe, stack, toks).Success? ==>
      forall i :: 0 <= i < |IntendedFrom(index, universe, stack, toks).value| ==>
        IntendedFrom(index, universe, stack, toks).value[i] <= universe
    decreases |toks|
  {
    if toks != [] {
      match IntendedStep(index, universe, stack, toks[0]) {
        case Failure =>
        case Success(next) =>
          if toks[0].Term? {
            LookupWithinPostings(index, Lower(toks[0].text));
          }
          assert forall i :: 0 <= i < |next| ==> next[i] <= universe;
          IntendedFromWithinUniverse(index, universe, next, toks[1..]);
      }
    }
  }

  /** Every intended answer lies within the universe, complements included. */
  lemma IntendedWithinUniverse(index: Index, query: string, universe: set<DocId>)
    requires Postings(index) <= universe
    ensures IntendedRetrieve(index, query, universe).Success? ==>
      IntendedRetrieve(index, query, universe).value <= universe
  {
    IntendedFromWithinUniverse(index, universe, [], Postfix(QueryTokens(query)));
  }

  lemma IntendedStepFrom(index: Index, universe: set<DocId>, stack: seq<set<DocId>>, t: Tok, rest: seq<Tok>)
    requires IntendedStep(index, universe, stack, t).Success?
    ensures IntendedFrom(index, universe, stack, [t] + rest)
         == IntendedFrom(index, universe, IntendedStep(index, universe, stack, t).value, rest)
  {
    assert ([t] + rest)[1..] == rest;
  }

  /** `NOT a` becomes `a NOT`. */
  lemma PostfixOfNot(a: Tok)
    requires a.Term?
    ensures Postfix([Op(Not), a]) == [a, Op(Not)]
  {
    assert [Op(Not), a] == [Op(Not)] + [a];
    ShuntPushStep([], [], Not, [a]);
    assert [] + [Not] == [Not];
    assert [a] == [a] + [];
    ShuntTermStep([], [Not], a, []);
    assert [] + [a] == [a];
    DrainOne([a], Not);
  }

  /** `a AND NOT b` becomes `a b NOT AND`: NOT binds tighter than AND. */
  lemma PostfixOfAndNot(a: Tok, b: Tok)
    requires a.Term? && b.Term?
    ensures Postfix([a, Op(And), Op(Not), b]) == [a, b, Op(Not), Op(And)]
  {
    assert [a, Op(And), Op(Not), b] == [a, Op(And)] + [Op(Not), b];
    ShuntTermOperator(a, And, [Op(Not), b]);
    assert [Op(Not), b] == [Op(Not)] + [b];
    ShuntPushStep([a], [And], Not, [b]);
    assert [And] + [Not] == [And, Not];
    assert [b] == [b] + [];
    ShuntTermStep([a], [And, Not], b, []);
    assert [a] + [b] == [a, b];
    DrainTwo([a, b], And, Not);
  }

  /** `a NOT` evaluates, with the intended NOT, to universe \\ a. */
  lemma IntendedEvalNot(index: Index, universe: set<DocId>, a: Tok)
    requires a.Term?
    ensures IntendedPostfix(index, universe, [a, Op(Not)]) == Success(universe - TermPostings(index, a.text))
  {
    var pa := TermPostings(index, a.text);
    IntendedStepFrom(index, universe, [], a, [Op(Not)]);
    assert [] + [pa] == [pa];
    IntendedStepFrom(index, universe, [pa], Op(Not), []);
    assert DropLast([pa]) == [];
  }

  lemma ClassifyTwo(toks: seq<Tok>, words: seq<string>, n: string, a: string)
    requires |toks| == |words| && forall i :: 0 <= i < |words| ==> toks[i] == Classify(Upper(words[i]))
    requires words == [n, a] && !IsKeyword(Upper(a))
    ensures toks == [Classify(Upper(n)), Term(Upper(a))]
  {
    assert toks[0] == Classify(Upper(words[0]));
    assert toks[1] == Classify(Upper(words[1]));
  }

  /** With the intended NOT, `NOT a` answers with the documents of the
      universe that do not contain a. */
  lemma IntendedNotQuery(index: Index, query: string, universe: set<DocId>, n: string, a: string)
    requires Split(query) == [n, a] && Upper(n) == "NOT" && !IsKeyword(Upper(a))
    ensures IntendedRetrieve(index, query, universe) == Success(universe - Lookup(index, Lower(a)))
  {
    var A := Term(Upper(a));
    QueryTokensOfWords(query);
    ClassifyTwo(QueryTokens(query), Split(query), n, a);
    PostfixOfNot(A);
    IntendedEvalNot(index, universe, A);
    TermPostingsOfUpper(index, a);
  }

  /** `a b NOT AND` evaluates, with the intended NOT, to a ∩ (universe \ b). */
  lemma IntendedEvalAndNot(index: Index, universe: set<DocId>, a: Tok, b: Tok)
    requires a.Term? && b.Term?
    ensures IntendedPostfix(index, universe, [a, b, Op(Not), Op(And)])
         == Success(TermPostings(index, a.text) * (universe - TermPostings(index, b.text)))
  {
    var pa, pb := TermPostings(index, a.text), TermPostings(index, b.text);
    IntendedStepFrom(index, universe, [], a, [b, Op(Not), Op(And)]);
    assert [] + [pa] == [pa];
    IntendedStepFrom(index, universe, [pa], b, [Op(Not), Op(And)]);
    IntendedStepFrom(index, universe, [pa, pb], Op(Not), [Op(And)]);
    assert DropLast([pa, pb]) == [pa];
    IntendedStepFrom(index, universe, [pa, universe - pb], Op(And), []);
    assert DropLast(DropLast([pa, universe - pb])) == [];
  }

  lemma ClassifyFour(toks: seq<Tok>, words: seq<string>, a: string, k1: string, k2: string, b: string)
    requires |toks| == |words| && forall i :: 0 <= i < |words| ==> toks[i] == Classify(Upper(words[i]))
    requires words == [a, k1, k2, b]
    requires !IsKeyword(Upper(a)) && !IsKeyword(Upper(b))
    ensures toks == [Term(Upper(a)), Classify(Upper(k1)), Classify(Upper(k2)), Term(Upper(b))]
  {
    assert toks[0] == Classify(Upper(words[0]));
    assert toks[1] == Classify(Upper(words[1]));
    assert toks[2] == Classify(Upper(words[2]));
    assert toks[3] == Classify(Upper(words[3]));
  }

  /** With the intended NOT, `a AND NOT b` answers with the documents that
      contain a but not b, provided the universe holds every indexed
      document. */
  lemma IntendedAndNotQuery(index: Index, query: string, universe: set<DocId>, a: string, n1: string, n2: string, b: string)
    requires Split(query) == [a, n1, n2, b] && Upper(n1) == "AND" && Upper(n2) == "NOT"
    requires !IsKeyword(Upper(a)) && !IsKeyword(Upper(b))
    requires Postings(index) <= universe
    ensures IntendedRetrieve(index, query, universe) == Success(Lookup(index, Lower(a)) - Lookup(index, Lower(b)))
  {
    var A, B := Term(Upper(a)), Term(Upper(b));
    FourWordTokens(query, a, n1, n2, b);
    PostfixOfAndNot(A, B);
    IntendedEvalAndNot(index, universe, A, B);
    TermPostingsOfUpper(index, a);
    TermPostingsOfUpper(index, b);
    LookupWithinPostings(index, Lower(a));
    ComplementWithin(Lookup(index, Lower(a)), Lookup(index, Lower(b)), universe);
  }

  lemma FourWordTokens(query: string, a: string, k1: string, k2: string, b: string)
    requires Split(query) == [a, k1, k2, b]
    requires !IsKeyword(Upper(a)) && !IsKeyword(Upper(b))
    ensures QueryTokens(query) == [Term(Upper(a)), Classify(Upper(k1)), Classify(Upper(k2)), Term(Upper(b))]
  {
    QueryTokensOfWords(query);
    ClassifyFour(QueryTokens(query), Split(query), a, k1, k2, b);
  }

  lemma ComplementWithin(x: set<DocId>, y: set<DocId>, universe: set<DocId>)
    requires x <= universe
    ensures x * (universe - y) == x - y
  {
  }
}
