/** The first phase of query evaluation: the shunting-yard conversion of the
    query's words from infix to postfix (reverse Polish) order, with NOT
    binding tighter than AND, and AND tighter than OR. */
module ShuntingYard {

  datatype OpKind = And | Or | Not

  /** A query word: an operator keyword, or a term (kept uppercased, as the
      query was uppercased before it was split). */
  datatype Tok = Op(kind: OpKind) | Term(text: string)

  /** `precedence`: NOT binds tightest, then AND, then OR; a word that is not
      an operator never reaches it, so its fallback value 0 is not modelled. */
  function Precedence(k: OpKind): (p: nat)
    ensures 1 <= p <= 3
    ensures p == 3 <==> k == Not
    ensures p == 1 <==> k == Or
  {
    match k
    case Not => 3
    case And => 2
    case Or => 1
  }

  predicate IsKeyword(word: string) {
    word == "AND" || word == "OR" || word == "NOT"
  }

  /** An uppercased query word is an operator exactly when it is one of the
      three keywords; any other word is a term. */
  function Classify(word: string): (t: Tok)
    ensures t.Op? <==> IsKeyword(word)
    ensures t.Term? ==> t.text == word
  {
    if word == "AND" then Op(And)
    else if word == "OR" then Op(Or)
    else if word == "NOT" then Op(Not)
    else Term(word)
  }

  function Last<T>(s: seq<T>): T
    requires s != []
  {
    s[|s| - 1]
  }

  function DropLast<T>(s: seq<T>): seq<T>
    requires s != []
  {
    s[..|s| - 1]
  }

  /** The operators of a stack as output tokens, bottom first. */
  function AsToks(ops: seq<OpKind>): seq<Tok> {
    seq(|ops|, i requires 0 <= i < |ops| => Op(ops[i]))
  }

  /** The terms among toks, in their order. */
  function TermsOf(toks: seq<Tok>): (terms: seq<string>)
    ensures |terms| <= |toks|
  {
    if toks == [] then []
    else TermsOf(DropLast(toks)) + (if Last(toks).Term? then [Last(toks).text] else [])
  }

  /** Moves operators from the top of the stack to the output for as long as
      the top binds at least as tightly as the incoming operator k. */
  function PopTighter(output: seq<Tok>, ops: seq<OpKind>, k: OpKind): (r: (seq<Tok>, seq<OpKind>))
    ensures |r.1| <= |ops| && r.1 == ops[..|r.1|]
    ensures r.1 == [] || Precedence(Last(r.1)) < Precedence(k)
    ensures forall i :: |r.1| <= i < |ops| ==> Precedence(ops[i]) >= Precedence(k)
    ensures |r.0| == |output| + |ops| - |r.1| && r.0[..|output|] == output
    ensures forall j :: |output| <= j < |r.0| ==> r.0[j] == Op(ops[|ops| - 1 - (j - |output|)])
    decreases |ops|
  {
    if ops != [] && Precedence(Last(ops)) >= Precedence(k)
    then PopTighter(output + [Op(Last(ops))], DropLast(ops), k)
    else (output, ops)
  }

  /** Handles one query word: an operator first pops the operators that bind
      at least as tightly and is then pushed; a term goes straight to the
      output. */
  function Shunt(output: seq<Tok>, ops: seq<OpKind>, t: Tok): (seq<Tok>, seq<OpKind>) {
    match t
    case Op(k) =>
      var popped := PopTighter(output, ops, k);
      (popped.0, popped.1 + [k])
    case Term(_) => (output + [t], ops)
  }

  /** Pops every remaining operator to the output, top first. */
  function Drain(output: seq<Tok>, ops: seq<OpKind>): (r: seq<Tok>)
    ensures |r| == |output| + |ops| && r[..|output|] == output
    ensures forall j :: |output| <= j < |r| ==> r[j] == Op(ops[|ops| - 1 - (j - |output|)])
    decreases |ops|
  {
    if ops == [] then output else Drain(output + [Op(Last(ops))], DropLast(ops))
  }

  /** The output produced from the state (output, ops) by the remaining words. */
  function ShuntFrom(output: seq<Tok>, ops: seq<OpKind>, tokens: seq<Tok>): seq<Tok>
    decreases |tokens|
  {
    if tokens == [] then Drain(output, ops)
    else
      var next := Shunt(output, ops, tokens[0]);
      ShuntFrom(next.0, next.1, tokens[1..])
  }

  /** The postfix form of a query's words. */
  function Postfix(tokens: seq<Tok>): seq<Tok> {
    ShuntFrom([], [], tokens)
  }

  /** Operators on the stack bind strictly more tightly from bottom to top. */
  ghost predicate Increasing(ops: seq<OpKind>) {
    forall i, j :: 0 <= i < j < |ops| ==> Precedence(ops[i]) < Precedence(ops[j])
  }

  /** The conversion: for each word, pop the operators that bind at least as
      tightly to the output and push an operator, or append a term to the
      output; at the end pop all remaining operators to the output. */
  method ToPostfix(tokens: seq<Tok>) returns (output: seq<Tok>)
    ensures output == Postfix(tokens)
    ensures |output| == |tokens| && multiset(output) == multiset(tokens)
    ensures TermsOf(output) == TermsOf(tokens)
  {
    output := [];
    var ops: seq<OpKind> := [];
    for i := 0 to |tokens|
      invariant ShuntFrom(output, ops, tokens[i..]) == Postfix(tokens)
      invariant Increasing(ops)
    {
      ghost var output0, ops0 := output, ops;
      assert tokens[i..][1..] == tokens[i + 1..];
      match tokens[i] {
        case Op(k) =>
          while ops != [] && Precedence(Last(ops)) >= Precedence(k)
            invariant PopTighter(output, ops, k) == PopTighter(output0, ops0, k)
            decreases |ops|
          {
            output := output + [Op(Last(ops))];
            ops := DropLast(ops);
          }
          ops := ops + [k];
        case Term(_) =>
          output := output + [tokens[i]];
      }
      ShuntKeepsStackIncreasing(output0, ops0, tokens[i]);
    }
    while ops != []
      invariant Drain(output, ops) == Postfix(tokens)
      decreases |ops|
    {
      output := output + [Op(Last(ops))];
      ops := DropLast(ops);
    }
    PostfixIsPermutation(tokens);
  }

  lemma {:induction false} TermsOfAppend(a: seq<Tok>, b: seq<Tok>)
    ensures TermsOf(a + b) == TermsOf(a) + TermsOf(b)
    decreases |b|
  {
    if b == [] {
      assert a + b == a;
    } else {
      assert DropLast(a + b) == a + DropLast(b);
      assert Last(a + b) == Last(b);
      TermsOfAppend(a, DropLast(b));
    }
  }

  lemma AsToksPush(ops: seq<OpKind>, k: OpKind)
    ensures AsToks(ops + [k]) == AsToks(ops) + [Op(k)]
    ensures TermsOf(AsToks(ops + [k])) == TermsOf(AsToks(ops))
  {
    assert AsToks(ops + [k]) == AsToks(ops) + [Op(k)];
    assert DropLast(AsToks(ops) + [Op(k)]) == AsToks(ops);
  }

  lemma AsToksPop(ops: seq<OpKind>)
    requires ops != []
    ensures multiset(AsToks(ops)) == multiset(AsToks(DropLast(ops))) + multiset{Op(Last(ops))}
  {
    assert DropLast(ops) + [Last(ops)] == ops;
    AsToksPush(DropLast(ops), Last(ops));
  }

  lemma TermsOfPush(output: seq<Tok>, t: Tok)
    ensures TermsOf(output + [t]) == TermsOf(output) + (if t.Term? then [t.text] else [])
  {
    assert DropLast(output + [t]) == output;
  }

  /** Popping only moves operators from the top of the stack to the output: no
      word is lost or added. */
  lemma {:induction false} PopTighterPermutes(output: seq<Tok>, ops: seq<OpKind>, k: OpKind)
    ensures multiset(PopTighter(output, ops, k).0) + multiset(AsToks(PopTighter(output, ops, k).1))
         == multiset(output) + multiset(AsToks(ops))
    decreases |ops|
  {
    if ops != [] && Precedence(Last(ops)) >= Precedence(k) {
      PopTighterPermutes(output + [Op(Last(ops))], DropLast(ops), k);
      AsToksPop(ops);
      assert multiset(output + [Op(Last(ops))]) == multiset(output) + multiset{Op(Last(ops))};
    }
  }

  /** Popping adds no term to the output, leaves the bottom of the old stack,
      and stops at a top that binds less tightly than k. */
  lemma {:induction false} PopTighterKeepsTerms(output: seq<Tok>, ops: seq<OpKind>, k: OpKind)
    ensures TermsOf(PopTighter(output, ops, k).0) == TermsOf(output)
    ensures var s := PopTighter(output, ops, k).1;
      |s| <= |ops| && s == ops[..|s|] && (s == [] || Precedence(Last(s)) < Precedence(k))
    decreases |ops|
  {
    if ops != [] && Precedence(Last(ops)) >= Precedence(k) {
      PopTighterKeepsTerms(output + [Op(Last(ops))], DropLast(ops), k);
      TermsOfPush(output, Op(Last(ops)));
    }
  }

  /** One word of the conversion moves that word and some operators around and
      loses nothing. */
  lemma ShuntPermutes(output: seq<Tok>, ops: seq<OpKind>, t: Tok)
    ensures multiset(Shunt(output, ops, t).0) + multiset(AsToks(Shunt(output, ops, t).1))
         == multiset(output) + multiset(AsToks(ops)) + multiset{t}
  {
    if t.Op? {
      var popped := PopTighter(output, ops, t.kind);
      PopTighterPermutes(output, ops, t.kind);
      AsToksPush(popped.1, t.kind);
      assert multiset(AsToks(popped.1 + [t.kind])) == multiset(AsToks(popped.1)) + multiset{t};
    } else {
      assert multiset(output + [t]) == multiset(output) + multiset{t};
    }
  }

  /** One word of the conversion appends that word to the output's terms when
      it is a term, and adds no term otherwise. */
  lemma ShuntKeepsTerms(output: seq<Tok>, ops: seq<OpKind>, t: Tok)
    ensures TermsOf(Shunt(output, ops, t).0) == TermsOf(output) + TermsOf([t])
  {
    assert [t] == [] + [t];
    TermsOfPush([], t);
    if t.Op? {
      PopTighterKeepsTerms(output, ops, t.kind);
    } else {
      TermsOfPush(output, t);
    }
  }

  /** Draining the stack moves its operators to the output and adds no term. */
  lemma {:induction false} DrainMoves(output: seq<Tok>, ops: seq<OpKind>)
    ensures multiset(Drain(output, ops)) == multiset(output) + multiset(AsToks(ops))
    ensures TermsOf(Drain(output, ops)) == TermsOf(output)
    decreases |ops|
  {
    if ops != [] {
      DrainMoves(output + [Op(Last(ops))], DropLast(ops));
      AsToksPop(ops);
      assert multiset(output + [Op(Last(ops))]) == multiset(output) + multiset{Op(Last(ops))};
      TermsOfPush(output, Op(Last(ops)));
    } else {
      assert AsToks(ops) == [];
    }
  }

  lemma {:induction false} ShuntFromPermutes(output: seq<Tok>, ops: seq<OpKind>, tokens: seq<Tok>)
    ensures multiset(ShuntFrom(output, ops, tokens))
         == multiset(output) + multiset(AsToks(ops)) + multiset(tokens)
    decreases |tokens|
  {
    if tokens == [] {
      DrainMoves(output, ops);
    } else {
      var next := Shunt(output, ops, tokens[0]);
      ShuntPermutes(output, ops, tokens[0]);
      ShuntFromPermutes(next.0, next.1, tokens[1..]);
      assert tokens == [tokens[0]] + tokens[1..];
      assert multiset(tokens) == multiset{tokens[0]} + multiset(tokens[1..]);
    }
  }

  lemma {:induction false} ShuntFromKeepsTerms(output: seq<Tok>, ops: seq<OpKind>, tokens: seq<Tok>)
    ensures TermsOf(ShuntFrom(output, ops, tokens)) == TermsOf(output) + TermsOf(tokens)
    decreases |tokens|
  {
    if tokens == [] {
      DrainMoves(output, ops);
    } else {
      var next := Shunt(output, ops, tokens[0]);
      ShuntKeepsTerms(output, ops, tokens[0]);
      ShuntFromKeepsTerms(next.0, next.1, tokens[1..]);
      assert tokens == [tokens[0]] + tokens[1..];
      TermsOfAppend([tokens[0]], tokens[1..]);
    }
  }

  /** The postfix form is a permutation of the query's words in which the terms
      keep their relative order. */
  lemma PostfixIsPermutation(tokens: seq<Tok>)
    ensures multiset(Postfix(tokens)) == multiset(tokens)
    ensures |Postfix(tokens)| == |tokens|
    ensures TermsOf(Postfix(tokens)) == TermsOf(tokens)
  {
    ShuntFromPermutes([], [], tokens);
    ShuntFromKeepsTerms([], [], tokens);
    assert AsToks([]) == [];
    assert multiset(Postfix(tokens)) == multiset(tokens);
    assert |multiset(Postfix(tokens))| == |Postfix(tokens)|;
  }

  /** Each step keeps the operator stack strictly increasing in precedence
      from bottom to top, so equal precedence never stacks: it associates to
      the left. */
  lemma ShuntKeepsStackIncreasing(output: seq<Tok>, ops: seq<OpKind>, t: Tok)
    requires Increasing(ops)
    ensures Increasing(Shunt(output, ops, t).1)
  {
    if t.Op? {
      PopTighterKeepsTerms(output, ops, t.kind);
      var s := PopTighter(output, ops, t.kind).1;
      assert Increasing(s);
      forall i, j | 0 <= i < j < |s + [t.kind]|
        ensures Precedence((s + [t.kind])[i]) < Precedence((s + [t.kind])[j])
      {
        if j == |s| && i < |s| - 1 {
          assert Precedence(s[i]) < Precedence(Last(s));
        }
      }
    }
  }

  /** Without operators, the words are already in postfix order. */
  lemma {:induction false} ShuntFromTermsOnly(output: seq<Tok>, tokens: seq<Tok>)
    requires forall i :: 0 <= i < |tokens| ==> tokens[i].Term?
    ensures ShuntFrom(output, [], tokens) == output + tokens
    decreases |tokens|
  {
    if tokens == [] {
      assert output + tokens == output;
    } else {
      ShuntFromTermsOnly(output + [tokens[0]], tokens[1..]);
      assert output + [tokens[0]] + tokens[1..] == output + tokens;
    }
  }

  lemma ShuntFromStep(output: seq<Tok>, ops: seq<OpKind>, t: Tok, rest: seq<Tok>)
    ensures ShuntFrom(output, ops, [t] + rest)
         == ShuntFrom(Shunt(output, ops, t).0, Shunt(output, ops, t).1, rest)
  {
    assert ([t] + rest)[1..] == rest;
  }

  /** A term goes straight to the output. */
  lemma ShuntTermStep(output: seq<Tok>, ops: seq<OpKind>, t: Tok, rest: seq<Tok>)
    requires t.Term?
    ensures ShuntFrom(output, ops, [t] + rest) == ShuntFrom(output + [t], ops, rest)
  {
    ShuntFromStep(output, ops, t, rest);
  }

  /** An operator meeting a looser one on top of the stack (or none) is pushed. */
  lemma ShuntPushStep(output: seq<Tok>, ops: seq<OpKind>, k: OpKind, rest: seq<Tok>)
    requires ops == [] || Precedence(Last(ops)) < Precedence(k)
    ensures ShuntFrom(output, ops, [Op(k)] + rest) == ShuntFrom(output, ops + [k], rest)
  {
    ShuntFromStep(output, ops, Op(k), rest);
  }

  /** An operator meeting a single operator that binds at least as tightly
      pops it and takes its place. */
  lemma ShuntPopStep(output: seq<Tok>, k0: OpKind, k: OpKind, rest: seq<Tok>)
    requires Precedence(k0) >= Precedence(k)
    ensures ShuntFrom(output, [k0], [Op(k)] + rest) == ShuntFrom(output + [Op(k0)], [k], rest)
  {
    ShuntFromStep(output, [k0], Op(k), rest);
    assert Last([k0]) == k0 && DropLast([k0]) == [];
    assert PopTighter(output + [Op(k0)], [], k) == (output + [Op(k0)], []);
    assert [] + [k] == [k];
  }

  /** An operator meeting two operators that both bind at least as tightly
      pops both, the top one first, and takes their place. */
  lemma ShuntPopTwoStep(output: seq<Tok>, k1: OpKind, k2: OpKind, k: OpKind, rest: seq<Tok>)
    requires Precedence(k1) >= Precedence(k) && Precedence(k2) >= Precedence(k)
    ensures ShuntFrom(output, [k1, k2], [Op(k)] + rest) == ShuntFrom(output + [Op(k2), Op(k1)], [k], rest)
  {
    ShuntFromStep(output, [k1, k2], Op(k), rest);
    var r := PopTighter(output, [k1, k2], k);
    assert r.1 == [];
    assert r.0 == output + [Op(k2), Op(k1)];
    assert [] + [k] == [k];
  }

  lemma DrainOne(output: seq<Tok>, k: OpKind)
    ensures Drain(output, [k]) == output + [Op(k)]
  {
    assert DropLast([k]) == [];
  }

  lemma DrainTwo(output: seq<Tok>, k1: OpKind, k2: OpKind)
    ensures Drain(output, [k1, k2]) == output + [Op(k2), Op(k1)]
  {
    assert Last([k1, k2]) == k2 && DropLast([k1, k2]) == [k1];
    DrainOne(output + [Op(k2)], k1);
  }

  /** The first two words `a k`: a is output, k is pushed. */
  lemma ShuntTermOperator(a: Tok, k: OpKind, rest: seq<Tok>)
    requires a.Term?
    ensures ShuntFrom([], [], [a, Op(k)] + rest) == ShuntFrom([a], [k], rest)
  {
    assert [a, Op(k)] + rest == [a] + ([Op(k)] + rest);
    ShuntTermStep([], [], a, [Op(k)] + rest);
    assert [] + [a] == [a];
    ShuntPushStep([a], [], Op(k).kind, rest);
    assert [] + [k] == [k];
  }

  /** The first three words `a k b`: a and b are output, k is on the stack. */
  lemma ShuntBinaryPrefix(a: Tok, k: OpKind, b: Tok, rest: seq<Tok>)
    requires a.Term? && b.Term?
    ensures ShuntFrom([], [], [a, Op(k), b] + rest) == ShuntFrom([a, b], [k], rest)
  {
    assert [a, Op(k), b] + rest == [a, Op(k)] + ([b] + rest);
    ShuntTermOperator(a, k, [b] + rest);
    ShuntTermStep([a], [k], b, rest);
    assert [a] + [b] == [a, b];
  }

  /** `a k b` becomes `a b k`. */
  lemma PostfixOfBinary(a: Tok, b: Tok, k: OpKind)
    requires a.Term? && b.Term?
    ensures Postfix([a, Op(k), b]) == [a, b, Op(k)]
  {
    assert [a, Op(k), b] + [] == [a, Op(k), b];
    ShuntBinaryPrefix(a, k, b, []);
    DrainOne([a, b], k);
  }

  /** From output [a, b] under k0, `k c` with k0 binding at least as tightly
      as k pops k0 before pushing k. */
  lemma ShuntPopThenTerm(a: Tok, b: Tok, c: Tok, k0: OpKind, k: OpKind)
    requires c.Term? && Precedence(k0) >= Precedence(k)
    ensures ShuntFrom([a, b], [k0], [Op(k), c]) == [a, b, Op(k0), c, Op(k)]
  {
    assert [Op(k), c] == [Op(k)] + [c];
    ShuntPopStep([a, b], k0, k, [c]);
    assert [a, b] + [Op(k0)] == [a, b, Op(k0)];
    assert [c] == [c] + [];
    ShuntTermStep([a, b, Op(k0)], [k], c, []);
    assert [a, b, Op(k0)] + [c] == [a, b, Op(k0), c];
    DrainOne([a, b, Op(k0), c], k);
  }

  /** From output [a, b] under k0, `k c` with k binding more tightly than k0
      pushes k above k0. */
  lemma ShuntPushThenTerm(a: Tok, b: Tok, c: Tok, k0: OpKind, k: OpKind)
    requires c.Term? && Precedence(k0) < Precedence(k)
    ensures ShuntFrom([a, b], [k0], [Op(k), c]) == [a, b, c, Op(k), Op(k0)]
  {
    assert [Op(k), c] == [Op(k)] + [c];
    ShuntPushStep([a, b], [k0], k, [c]);
    assert [k0] + [k] == [k0, k];
    assert [c] == [c] + [];
    ShuntTermStep([a, b], [k0, k], c, []);
    assert [a, b] + [c] == [a, b, c];
    DrainTwo([a, b, c], k0, k);
  }

  /** AND binds tighter than a preceding OR: `a OR b AND c` becomes
      `a b c AND OR`. */
  lemma AndBindsTighterAfterOr(a: Tok, b: Tok, c: Tok)
    requires a.Term? && b.Term? && c.Term?
    ensures Postfix([a, Op(Or), b, Op(And), c]) == [a, b, c, Op(And), Op(Or)]
  {
    assert [a, Op(Or), b, Op(And), c] == [a, Op(Or), b] + [Op(And), c];
    ShuntBinaryPrefix(a, Or, b, [Op(And), c]);
    ShuntPushThenTerm(a, b, c, Or, And);
  }

  /** AND binds tighter than a following OR: `a AND b OR c` becomes
      `a b AND c OR`. */
  lemma AndBindsTighterBeforeOr(a: Tok, b: Tok, c: Tok)
    requires a.Term? && b.Term? && c.Term?
    ensures Postfix([a, Op(And), b, Op(Or), c]) == [a, b, Op(And), c, Op(Or)]
  {
    assert [a, Op(And), b, Op(Or), c] == [a, Op(And), b] + [Op(Or), c];
    ShuntBinaryPrefix(a, And, b, [Op(Or), c]);
    ShuntPopThenTerm(a, b, c, And, Or);
  }

  /** An operator meeting one of equal precedence on the stack pops it first,
      so `a AND b AND c` becomes `a b AND c AND`: left associativity. */
  lemma EqualPrecedenceAssociatesLeft(a: Tok, b: Tok, c: Tok, k: OpKind)
    requires a.Term? && b.Term? && c.Term?
    ensures Postfix([a, Op(k), b, Op(k), c]) == [a, b, Op(k), c, Op(k)]
  {
    assert [a, Op(k), b, Op(k), c] == [a, Op(k), b] + [Op(k), c];
    ShuntBinaryPrefix(a, k, b, [Op(k), c]);
    ShuntPopThenTerm(a, b, c, k, k);
  }

  /** `a OR b AND c OR d`: the second OR pops AND and then the first OR, top
      of the stack first, giving `a b c AND OR d OR`, that is
      (a OR (b AND c)) OR d. */
  lemma SecondOrPopsTopFirst(a: Tok, b: Tok, c: Tok, d: Tok)
    requires a.Term? && b.Term? && c.Term? && d.Term?
    ensures Postfix([a, Op(Or), b, Op(And), c, Op(Or), d]) == [a, b, c, Op(And), Op(Or), d, Op(Or)]
  {
    assert [a, Op(Or), b, Op(And), c, Op(Or), d] == [a, Op(Or), b] + [Op(And), c, Op(Or), d];
    ShuntBinaryPrefix(a, Or, b, [Op(And), c, Op(Or), d]);
    ShuntAndThenPopTwo(a, b, c, d);
  }

  lemma ShuntAndThenPopTwo(a: Tok, b: Tok, c: Tok, d: Tok)
    requires c.Term? && d.Term?
    ensures ShuntFrom([a, b], [Or], [Op(And), c, Op(Or), d]) == [a, b, c, Op(And), Op(Or), d, Op(Or)]
  {
    assert [Op(And), c, Op(Or), d] == [Op(And)] + [c, Op(Or), d];
    ShuntPushStep([a, b], [Or], And, [c, Op(Or), d]);
    assert [Or] + [And] == [Or, And];
    assert [c, Op(Or), d] == [c] + [Op(Or), d];
    ShuntTermStep([a, b], [Or, And], c, [Op(Or), d]);
    assert [a, b] + [c] == [a, b, c];
    assert [Op(Or), d] == [Op(Or)] + [d];
    ShuntPopTwoStep([a, b, c], Or, And, Or, [d]);
    assert [a, b, c] + [Op(And), Op(Or)] == [a, b, c, Op(And), Op(Or)];
    assert [d] == [d] + [];
    ShuntTermStep([a, b, c, Op(And), Op(Or)], [Or], d, []);
    assert [a, b, c, Op(And), Op(Or)] + [d] == [a, b, c, Op(And), Op(Or), d];
    DrainOne([a, b, c, Op(And), Op(Or), d], Or);
  }
}
