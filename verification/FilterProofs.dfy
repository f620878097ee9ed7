/** Parsing what was spelled gives the filter that was meant. */
module FilterProofs {
  import opened Wrappers
  import opened FilterText
  import opened FilterGrammar

  // ---------------------------------------------------------------------------------------------
  // Attributes and relations
  // ---------------------------------------------------------------------------------------------

  lemma AttributeParses(p: Placeholder, t: string)
    requires PlaceholderOk(p)
    ensures ParseAttribute(PlaceholderText(p) + t) == Some((p.name, Trim(t)))
  {
    hide Trim, WordRun;
    var v := "%" + t;
    var u := p.trail + v;
    var s := p.name + u;
    assert PlaceholderText(p) + t == p.lead + s;
    assert s[0] == p.name[0];
    TrimGap(p.lead, s);
    assert u[0] == if p.trail == "" then '%' else p.trail[0];
    WordRunIs(p.name, u);
    assert s[..|p.name|] == p.name && s[|p.name|..] == u;
    TrimGap(p.trail, v);
    assert v[1..] == t;
  }

  lemma WordParses(w: string, t: string)
    requires OperandOk(Word(w))
    requires t == "" || !IsOperandChar(t[0])
    ensures ParseOperand(w + t) == Operand(w, t) && Solid(w + t)
  {
    hide QuotedRun, OperandRun;
    var s := w + t;
    assert s[0] == w[0];
    assert s[1..] == w[1..] + t;
    OperandRunIs(w[1..], t);
    assert s[..|w|] == w && s[|w|..] == t;
  }

  lemma QuotedParses(q: string, t: string)
    requires OperandOk(Quoted(q))
    ensures ParseOperand("\"" + (q + ("\"" + t))) == Operand(q, t)
  {
    QuotedRunStops(q, t);
    hide QuotedRun, OperandRun;
    var u := q + ("\"" + t);
    var s := "\"" + u;
    assert s[1..] == u;
    assert u[..|q|] == q;
    assert s[|q| + 2..] == t;
  }

  lemma OperandParses(operand: OperandText, t: string)
    requires OperandOk(operand)
    requires operand.Word? && t != "" ==> !IsOperandChar(t[0])
    ensures ParseOperand(OperandSpelling(operand) + t) == Operand(operand.text, t)
    ensures Solid(OperandSpelling(operand) + t)
  {
    hide ParseOperand, OperandOk;
    match operand
    case Word(w) =>
      WordParses(w, t);
    case Quoted(q) =>
      QuotedParses(q, t);
      assert OperandSpelling(operand) + t == "\"" + (q + ("\"" + t));
  }

  lemma SymbolScans(relation: Relation, gap: string, t: string)
    requires IsGap(gap) && !relation.Custom?
    ensures ScanRelation(RelationText(relation) + (gap + t)) == Some((relation, |RelationText(relation)|))
  {
    var s := RelationText(relation) + (gap + t);
    KeywordReads(RelationText(relation), gap, t);
    assert s[0] == RelationText(relation)[0];
    assert |RelationText(relation)| == 1 ==> IsSpace(s[1]);
    assert |RelationText(relation)| == 2 ==> s[1] == '=';
    OneCharKeyword(s);
    TwoCharKeyword(s);
  }

  lemma OneCharKeyword(s: string)
    requires |s| > 1
    ensures Keyword(s, "=") <==> s[0] == '=' && IsSpace(s[1])
    ensures Keyword(s, ">") <==> s[0] == '>' && IsSpace(s[1])
    ensures Keyword(s, "<") <==> s[0] == '<' && IsSpace(s[1])
  {
    assert s[..1] == [s[0]];
  }

  lemma TwoCharKeyword(s: string)
    requires |s| > 1
    ensures Keyword(s, "!=") ==> s[0] == '!' && s[1] == '='
    ensures Keyword(s, ">=") ==> s[0] == '>' && s[1] == '='
    ensures Keyword(s, "<=") ==> s[0] == '<' && s[1] == '='
  {
    assert s[..2] == [s[0], s[1]];
  }

  lemma FirstCharKeyword(s: string, word: string)
    requires s != "" && word != "" && s[0] != word[0]
    ensures !Keyword(s, word)
  {
    assert |word| < |s| ==> s[..|word|][0] == s[0];
  }

  lemma NoSymbol(s: string)
    requires s == "" || (s[0] != '=' && s[0] != '!' && s[0] != '>' && s[0] != '<')
    ensures !Keyword(s, "=") && !Keyword(s, "!=") && !Keyword(s, ">") && !Keyword(s, "<")
    ensures !Keyword(s, ">=") && !Keyword(s, "<=")
  {
    if s != "" {
      FirstCharKeyword(s, "=");
      FirstCharKeyword(s, "!=");
      FirstCharKeyword(s, ">");
      FirstCharKeyword(s, "<");
      FirstCharKeyword(s, ">=");
      FirstCharKeyword(s, "<=");
    }
  }

  lemma RelationScans(relation: Relation, gap: string, t: string)
    requires IsBlank(gap) && (relation.Custom? ==> IsWord(relation.word))
    requires gap == "" ==> relation.Custom? && t != "" && !IsWordChar(t[0])
    ensures ScanRelation(RelationText(relation) + (gap + t)) == Some((relation, |RelationText(relation)|))
    ensures Solid(RelationText(relation) + (gap + t))
  {
    var s := RelationText(relation) + (gap + t);
    assert s[0] == RelationText(relation)[0];
    if relation.Custom? {
      hide Keyword;
      NoSymbol(s);
      assert (gap + t)[0] == if gap == "" then t[0] else gap[0];
      WordRunIs(relation.word, gap + t);
      assert s[..|relation.word|] == relation.word;
    } else {
      SymbolScans(relation, gap, t);
    }
  }

  lemma TestParses(test: Test, name: string, t: string)
    requires TestOk(test)
    requires test.operand.Word? && t != "" ==> !IsOperandChar(t[0])
    ensures ParseRelation(TestText(test) + t, name) == Ok(t, Compare(name, test.relation, test.operand.text))
    ensures Solid(TestText(test) + t)
  {
    hide ScanRelation, ParseOperand, OperandOk, Solid, RelationText, OperandSpelling;
    var relation, operand := RelationText(test.relation), OperandSpelling(test.operand);
    var s := TestText(test) + t;
    assert s == relation + (test.gap + (operand + t));
    SpellingNotEmpty(test.operand);
    assert (operand + t)[0] == operand[0];
    RelationScans(test.relation, test.gap, operand + t);
    assert s[|relation|..] == test.gap + (operand + t);
    OperandParses(test.operand, t);
    TrimGap(test.gap, operand + t);
  }

  lemma SpellingNotEmpty(operand: OperandText)
    requires OperandOk(operand)
    ensures OperandSpelling(operand) != ""
  {
  }

  // ---------------------------------------------------------------------------------------------
  // Negation signs
  // ---------------------------------------------------------------------------------------------

  lemma BangParses(gap: string, s: string, negated: bool, present: bool, depth: nat)
    requires Solid(s) && IsBlank(gap)
    ensures ParseSub("!" + (gap + s), negated, present, depth) == ParseSub(s, !negated, true, depth)
  {
    hide ParseAttributeSub, ParseNested, Keyword, Trim;
    TrimGap(gap, s);
    assert ("!" + (gap + s))[1..] == gap + s;
  }

  lemma NotParses(gap: string, s: string, negated: bool, present: bool, depth: nat)
    requires Solid(s) && IsGap(gap)
    ensures ParseSub("not" + (gap + s), negated, present, depth) == ParseSub(s, !negated, true, depth)
  {
    hide ParseAttributeSub, ParseNested, Keyword, Trim;
    var u := "not" + (gap + s);
    TrimGap(gap, s);
    KeywordReads("not", gap, s);
    assert u[0] == 'n';
  }

  lemma SignsTextSteps(signs: seq<Sign>, s: string)
    ensures signs == [] ==> SignsText(signs) + s == s
    ensures signs != [] ==>
      SignsText(signs) + s == (if signs[0].Bang? then "!" else "not") + (signs[0].gap + (SignsText(signs[1..]) + s))
  {
    if signs == [] {
      assert SignsText(signs) + s == s;
    } else {
      var word := if signs[0].Bang? then "!" else "not";
      assert SignsText(signs) + s == word + (signs[0].gap + (SignsText(signs[1..]) + s));
    }
  }

  lemma SignsSolid(signs: seq<Sign>, s: string)
    requires Solid(s)
    ensures Solid(SignsText(signs) + s)
  {
    if signs != [] {
      assert (SignsText(signs) + s)[0] == if signs[0].Bang? then '!' else 'n';
    }
  }

  lemma OddStep(signs: seq<Sign>)
    requires signs != []
    ensures Odd(signs) == !Odd(signs[1..])
  {
  }

  lemma NoSigns()
    ensures !Odd([])
  {
  }

  lemma {:induction false} SignsParse(signs: seq<Sign>, s: string, negated: bool, present: bool, depth: nat)
    requires Solid(s) && SignsOk(signs)
    ensures ParseSub(SignsText(signs) + s, negated, present, depth)
         == ParseSub(s, negated != Odd(signs), present || signs != [], depth)
    decreases |signs|
  {
    hide ParseSub, Solid, Odd, SignsText, IsBlank;
    SignsTextSteps(signs, s);
    if signs == [] {
      NoSigns();
    } else {
      OddStep(signs);
      var rest := SignsText(signs[1..]) + s;
      SignsSolid(signs[1..], s);
      SignsParse(signs[1..], s, !negated, true, depth);
      assert SignOk(signs[0]);
      if signs[0].Bang? {
        BangParses(signs[0].gap, rest, negated, present, depth);
      } else {
        NotParses(signs[0].gap, rest, negated, present, depth);
      }
    }
  }

  // ---------------------------------------------------------------------------------------------
  // Subexpressions and chains
  // ---------------------------------------------------------------------------------------------

  /** What may follow a subexpression: nothing that would be read as part of it. */
  predicate EndsSub(sub: Sub, t: string, depth: nat)
  {
    && (EndsInWord(sub) && t != "" ==> !IsOperandChar(t[0]))
    && (IsBare(sub) ==> ScanRelation(Trim(t)).None?)
    && (depth > 0 ==> t != "")
  }

  /** The parser has read a subexpression, up to white space behind it. */
  predicate ReadsTo(r: Parsed, f: Filter, t: string)
  {
    r.Ok? && r.filter == f && Trim(r.rest) == Trim(t)
  }

  lemma TrimTwice(t: string)
    ensures Trim(Trim(t)) == Trim(t)
  {
    TrimSolid(Trim(t));
  }

  lemma PercentStarts(s: string, negated: bool, present: bool, depth: nat)
    ensures ParseSub("%" + s, negated, present, depth) == ParseAttributeSub(s, negated, present)
  {
    hide ParseAttributeSub, ParseNested, Keyword, Trim;
    assert ("%" + s)[1..] == s;
  }

  lemma AttributeStarts(p: Placeholder, u: string, negated: bool, present: bool, depth: nat)
    requires PlaceholderOk(p)
    ensures ParseSub("%" + (PlaceholderText(p) + u), negated, present, depth)
         == Negated(if present then Ok(Trim(u), Exists(p.name)) else ParseRelation(Trim(u), p.name), negated)
  {
    hide ParseAttribute, ParseRelation, Negated, ParseSub, Trim, PlaceholderText, PlaceholderOk;
    AttributeParses(p, u);
    PercentStarts(PlaceholderText(p) + u, negated, present, depth);
  }

  lemma PlainAttributeParses(sub: Sub, t: string, depth: nat)
    requires sub.Attribute? && SubForm(sub) && sub.test.None? && EndsSub(sub, t, depth)
    ensures ReadsTo(ParseSub(SubText(sub) + t, false, false, depth), SubFilter(sub), t)
  {
    hide ParseSub, SignsText, ScanRelation, Trim, PlaceholderText, PlaceholderOk;
    var u := "%" + (PlaceholderText(sub.placeholder) + t);
    assert SubText(sub) + t == SignsText(sub.signs) + u;
    SignsParse(sub.signs, u, false, false, depth);
    AttributeStarts(sub.placeholder, t, Odd(sub.signs), sub.signs != [], depth);
    TrimTwice(t);
  }

  lemma TestedAttributeParses(sub: Sub, t: string, depth: nat)
    requires sub.Attribute? && SubForm(sub) && sub.test.Some? && EndsSub(sub, t, depth)
    ensures ReadsTo(ParseSub(SubText(sub) + t, false, false, depth), SubFilter(sub), t)
  {
    hide ParseSub, ScanRelation, Trim, ParseRelation, TestText, Solid, PlaceholderText, PlaceholderOk;
    var lead, test := sub.test.value.lead, TestText(sub.test.value) + t;
    var u := lead + test;
    assert SubText(sub) + t == "%" + (PlaceholderText(sub.placeholder) + u);
    AttributeStarts(sub.placeholder, u, false, false, depth);
    TestParses(sub.test.value, sub.placeholder.name, t);
    TrimGap(lead, test);
  }

  lemma SubSolid(sub: Sub, t: string)
    ensures SubText(sub) + t != "" && Solid(SubText(sub) + t)
  {
    hide SignsText;
    var u := CoreText(sub) + t;
    assert u[0] == if sub.Attribute? then '%' else '(';
    SignsSolid(sub.signs, u);
    assert SubText(sub) + t == SignsText(sub.signs) + u;
  }

  lemma {:induction false} ChainSolid(chain: Chain, t: string)
    ensures ChainText(chain) + t != "" && Solid(ChainText(chain) + t)
    decreases chain
  {
    hide SubText, Solid;
    if chain.One? {
      SubSolid(chain.sub, t);
    } else {
      var u := chain.before + (OperatorText(chain.op, chain.spelled) + (chain.after + SubText(chain.sub)));
      ChainSolid(chain.chain, u + t);
      assert ChainText(chain) + t == ChainText(chain.chain) + (u + t);
    }
  }

  lemma EmptyOrSolid(t: string)
    ensures ScanRelation("").None?
    ensures t != "" && t[0] == ')' ==> Trim(t) == t && ScanRelation(t).None?
  {
    assert WordRun("") == 0;
    if t != "" && t[0] == ')' {
      NoSymbol(t);
      TrimSolid(t);
      assert WordRun(t) == 0;
    }
  }

  /** A closing parenthesis ends any subexpression. */
  lemma ClosingEnds(sub: Sub, close: string, t: string, depth: nat)
    requires IsBlank(close)
    ensures EndsSub(sub, close + (")" + t), depth)
  {
    hide Trim, ScanRelation;
    EmptyOrSolid(")" + t);
    TrimGap(close, ")" + t);
    assert (close + (")" + t))[0] == if close == "" then ')' else close[0];
  }

  lemma OperatorStarts(op: Operator, spelled: bool, u: string)
    ensures Solid(OperatorText(op, spelled) + u)
    ensures !spelled ==> ScanRelation(OperatorText(op, spelled) + u).None?
  {
    hide Keyword;
    var v := OperatorText(op, spelled) + u;
    assert v[0] == OperatorText(op, spelled)[0];
    if !spelled {
      NoSymbol(v);
      assert WordRun(v) == 0;
    }
  }

  /** So does an operator, except a spelled one after a presence test. */
  lemma OperatorEnds(front: Sub, before: string, op: Operator, spelled: bool, u: string, depth: nat)
    requires IsBlank(before) && (spelled ==> !IsBare(front)) && (spelled && before == "" ==> !EndsInWord(front))
    ensures EndsSub(front, before + (OperatorText(op, spelled) + u), depth)
    ensures Trim(before + (OperatorText(op, spelled) + u)) == OperatorText(op, spelled) + u
  {
    hide Trim, ScanRelation;
    var v := OperatorText(op, spelled) + u;
    OperatorStarts(op, spelled, u);
    TrimGap(before, v);
    assert (before + v)[0] == if before == "" then OperatorText(op, spelled)[0] else before[0];
  }

  /** An operator and its right-hand side continue the chain. */
  lemma OperatorContinues(op: Operator, spelled: bool, after: string, s: string, depth: nat, f: Filter)
    requires IsBlank(after) && (spelled ==> after != "") && s != "" && Solid(s)
    ensures Continue(OperatorText(op, spelled) + (after + s), depth, f) == ParseChain(s, depth, Some((f, op)))
  {
    hide ScanOperator, ParseChain, Trim;
    var text := OperatorText(op, spelled);
    var p := text + (after + s);
    OperatorScans(op, spelled, after, s);
    TrimGap(after, s);
    assert p[0] == text[0];
    assert p[|text|..] == after + s;
  }

  lemma OperatorScans(op: Operator, spelled: bool, after: string, s: string)
    requires IsBlank(after) && (spelled ==> after != "")
    ensures ScanOperator(OperatorText(op, spelled) + (after + s)) == Some((op, |OperatorText(op, spelled)|))
  {
    var text := OperatorText(op, spelled);
    var p := text + (after + s);
    if spelled {
      KeywordReads(text, after, s);
    }
    assert p[0] == text[0];
    if op.Or? {
      FirstCharKeyword(p, "and");
    }
  }

  lemma ParenStarts(open: string, u: string, negated: bool, present: bool, depth: nat)
    requires IsBlank(open) && u != "" && Solid(u)
    ensures ParseSub("(" + (open + u), negated, present, depth) == Negated(ParseChain(u, depth + 1, None), negated)
  {
    hide ParseChain, Trim, Negated, ParseAttributeSub, Keyword;
    TrimGap(open, u);
    assert ("(" + (open + u))[1..] == open + u;
    FirstCharKeyword("(" + (open + u), "not");
  }

  lemma ClosingContinues(close: string, t: string, depth: nat, f: Filter)
    requires IsBlank(close) && (depth > 0 ==> t != "")
    ensures Continue(Trim(close + (")" + t)), depth + 1, f) == Ok(t, f)
  {
    hide ScanOperator, ParseChain, Trim;
    TrimGap(close, ")" + t);
    assert (")" + t)[1..] == t;
  }

  lemma ParenText(sub: Sub, t: string)
    requires sub.Paren?
    ensures SubText(sub) + t == SignsText(sub.signs) + ("(" + (sub.open + (ChainText(sub.chain) + (sub.close + (")" + t)))))
  {
    hide SignsText, ChainText;
  }

  /** Every subexpression is read whole and gives the filter it stands for. */
  lemma {:induction false} SubParses(sub: Sub, t: string, depth: nat)
    requires SubForm(sub) && SubClear(sub) && EndsSub(sub, t, depth)
    ensures ReadsTo(ParseSub(SubText(sub) + t, false, false, depth), SubFilter(sub), t)
    decreases sub
  {
    match sub
    case Attribute(signs, placeholder, test) =>
      hide ParseSub, SubText, SubFilter, ReadsTo, ScanRelation, Trim;
      if test.None? {
        PlainAttributeParses(sub, t, depth);
      } else {
        TestedAttributeParses(sub, t, depth);
      }
    case Paren(signs, open, chain, close) =>
      hide ParseSub, ParseChain, Continue, SignsText, ChainText, SubText, ChainFilter, ScanRelation, Trim, IsBlank, EndsInWord;
      var end := close + (")" + t);
      var u := ChainText(chain) + end;
      ParenText(sub, t);
      SignsParse(signs, "(" + (open + u), false, false, depth);
      ChainSolid(chain, end);
      ParenStarts(open, u, Odd(signs), signs != [], depth);
      ClosingEnds(chain.sub, close, t, depth + 1);
      ChainParses(chain, end, depth + 1);
      ClosingContinues(close, t, depth, ChainFilter(chain));
  }

  /** Every chain is read whole, and reading goes on with the filter it stands for. */
  lemma {:induction false} ChainParses(chain: Chain, t: string, depth: nat)
    requires ChainForm(chain) && ChainClear(chain) && EndsSub(chain.sub, t, depth)
    ensures ChainText(chain) + t != ""
    ensures ParseChain(ChainText(chain) + t, depth, None) == Continue(Trim(t), depth, ChainFilter(chain))
    decreases chain
  {
    hide ParseSub, Continue, SubText, SubFilter, ScanRelation, Trim, IsBlank, EndsSub, OperatorText, SubForm, SubClear, Solid;
    ChainSolid(chain, t);
    SubSolid(chain.sub, t);
    SubParses(chain.sub, t, depth);
    match chain
    case One(sub) =>
    case More(front, before, op, spelled, after, sub) =>
      var right := SubText(sub) + t;
      var u := OperatorText(op, spelled) + (after + right);
      assert ChainText(chain) + t == ChainText(front) + (before + u);
      OperatorEnds(front.sub, before, op, spelled, after + right, depth);
      ChainParses(front, before + u, depth);
      OperatorContinues(op, spelled, after, right, depth, ChainFilter(front));
  }

  /** Chains at the top level, with white space around them. */
  lemma TopLevel(lead: string, chain: Chain, trail: string)
    requires IsBlank(lead) && IsBlank(trail)
    ensures ChainText(chain) + trail != ""
    ensures ParseFilter(lead + (ChainText(chain) + trail))
         == var r := ParseChain(ChainText(chain) + trail, 0, None); if r.Ok? then HasFilter(r.filter) else Error
    ensures EndsSub(chain.sub, trail, 0) && Trim(trail) == ""
  {
    hide ChainText, ParseChain, Trim, ScanRelation;
    var s := ChainText(chain) + trail;
    ChainSolid(chain, trail);
    TrimGap(lead, s);
    EmptyOrSolid("");
    assert trail + "" == trail;
    TrimGap(trail, "");
  }

  /**
   For every expression and every white space, position by position: the parser accepts what is spelled, and the filter
   it returns has the truth value of the expression on every record.
   */
  lemma ParsesToMeaning(lead: string, chain: Chain, trail: string, record: Filter -> bool)
    requires IsBlank(lead) && ChainForm(chain) && ChainClear(chain) && IsBlank(trail)
    ensures ParseFilter(lead + (ChainText(chain) + trail)) == HasFilter(ChainFilter(chain))
    ensures Eval(ChainFilter(chain), record) == ChainTruth(chain, record)
  {
    hide ChainText, ParseChain, ChainForm, ChainClear, ParseFilter, EndsSub, Trim;
    TopLevel(lead, chain, trail);
    ChainParses(chain, trail, 0);
    ChainFilterIsMeant(chain, record);
  }
}
