/**
 The one family of expressions that does not parse as meant: a presence test followed by a spelled-out operator. The
 parser reads the operator as the name of a custom relation and the start of the next subexpression as its operand. What
 is left is refused, unless white space follows the percent sign that opens that subexpression: then the parser may go on
 and return another filter.
 */
module FilterMisreading {
  import opened Wrappers
  import opened FilterText
  import opened FilterGrammar
  import opened FilterProofs

  // ---------------------------------------------------------------------------------------------
  // The filter is another one
  // ---------------------------------------------------------------------------------------------

  /** The tests a filter is made of, from left to right. */
  function Leaves(f: Filter): (ls: seq<Filter>)
  {
    match f
    case Exists(_) => [f]
    case Compare(_, _, _) => [f]
    case Not(inner) => Leaves(inner)
    case Binary(_, left, right) => Leaves(left) + Leaves(right)
  }

  ghost predicate Diverge(a: seq<Filter>, b: seq<Filter>)
  {
    exists i :: 0 <= i < |a| && i < |b| && a[i] != b[i]
  }

  /** Sequences that diverge do so whatever is in front of both and behind either. */
  lemma DivergeGrows(front: seq<Filter>, a: seq<Filter>, b: seq<Filter>, a': seq<Filter>, b': seq<Filter>)
    requires Diverge(a, b) && front + a <= a' && front + b <= b'
    ensures Diverge(a', b')
  {
    var i :| 0 <= i < |a| && i < |b| && a[i] != b[i];
    var k := |front| + i;
    assert a'[k] == (front + a)[k] == a[i] && b'[k] == (front + b)[k] == b[i];
  }

  /** Reading on never changes the tests read so far. */
  lemma {:induction false} ContinueKeeps(p: string, depth: nat, f: Filter)
    ensures var r := Continue(p, depth, f); r.Ok? ==> Leaves(f) <= Leaves(r.filter)
    decreases |p|
  {
    hide ScanOperator, ParseSub;
    if p != "" && p[0] != ')' && ScanOperator(p).Some? {
      var q, op := Trim(p[ScanOperator(p).value.1..]), ScanOperator(p).value.0;
      if q != "" {
        var sub := ParseSub(q, false, false, depth);
        if sub.Ok? {
          ContinueKeeps(Trim(sub.rest), depth, Binary(op, f, sub.filter));
        }
      }
    }
  }

  lemma ChainKeeps(s: string, depth: nat, pending: Option<(Filter, Operator)>)
    requires s != ""
    ensures var r, sub := ParseChain(s, depth, pending), ParseSub(s, false, false, depth);
      r.Ok? ==> sub.Ok? && Leaves(Combined(pending, sub.filter)) <= Leaves(r.filter)
  {
    hide Continue, ParseSub, Combined;
    var sub := ParseSub(s, false, false, depth);
    if sub.Ok? {
      ContinueKeeps(Trim(sub.rest), depth, Combined(pending, sub.filter));
    }
  }

  lemma NegatedLeaves(r: Parsed, negated: bool, f: Filter, signs: seq<Sign>)
    requires r.Ok?
    ensures Leaves(Negated(r, negated).filter) == Leaves(r.filter) && Leaves(Signed(f, signs)) == Leaves(f)
  {
  }

  /** A presence test followed by a word, read as a relation: if it parses at all, the test is a comparison. */
  lemma BareReadsRelation(p: Placeholder, u: string, depth: nat)
    requires PlaceholderOk(p) && ScanRelation(Trim(u)).Some?
    ensures var r := ParseSub(SubText(Attribute([], p, None)) + u, false, false, depth);
      r.Ok? ==> r.filter.Compare?
  {
    hide ScanRelation, Trim, ParseSub, PlaceholderOk;
    BareText(p, u);
    AttributeStarts(p, u, false, false, depth);
  }

  lemma SpelledIsRelation(before: string, op: Operator, after: string, right: string)
    requires IsBlank(before) && IsGap(after)
    ensures ScanRelation(Trim(before + (OperatorText(op, true) + (after + right))))
         == Some((Custom(OperatorText(op, true)), |OperatorText(op, true)|))
  {
    hide ScanRelation, Trim, OperatorText;
    var word := OperatorText(op, true);
    OperatorIsWord(op);
    RelationScans(Custom(word), after, right);
    TrimGap(before, word + (after + right));
  }

  lemma {:induction false} BadSubDiverges(sub: Sub, t: string, depth: nat)
    requires SubForm(sub) && !SubClear(sub)
    ensures var r := ParseSub(SubText(sub) + t, false, false, depth); r.Ok? ==> Diverge(Leaves(r.filter), Leaves(SubFilter(sub)))
    decreases sub
  {
    hide ParseSub, ParseChain, SignsText, ChainText, SubText, Trim, IsBlank, Leaves, Diverge, ChainFilter, Signed, Negated;
    var end := sub.close + (")" + t);
    var u := ChainText(sub.chain) + end;
    ParenText(sub, t);
    SignsParse(sub.signs, "(" + (sub.open + u), false, false, depth);
    ChainSolid(sub.chain, end);
    ParenStarts(sub.open, u, Odd(sub.signs), sub.signs != [], depth);
    BadChainDiverges(sub.chain, end, depth + 1);
    var r := ParseChain(u, depth + 1, None);
    if r.Ok? {
      NegatedLeaves(r, Odd(sub.signs), ChainFilter(sub.chain), sub.signs);
    }
  }

  /** A chain that is not clear is refused, or one of its tests comes out as another one. */
  lemma {:induction false} BadChainDiverges(chain: Chain, t: string, depth: nat)
    requires ChainForm(chain) && !ChainClear(chain)
    ensures ChainText(chain) + t != ""
    ensures var r := ParseChain(ChainText(chain) + t, depth, None); r.Ok? ==> Diverge(Leaves(r.filter), Leaves(ChainFilter(chain)))
    decreases chain
  {
    hide ParseSub, Continue, SubText, Trim, IsBlank, OperatorText, SubClear, SubForm, Solid, EndsSub, Diverge, ParseChain, SubFilter;
    ChainSolid(chain, t);
    SubSolid(chain.sub, t);
    var r := ParseChain(ChainText(chain) + t, depth, None);
    match chain
    case One(sub) =>
      BadSubDiverges(sub, t, depth);
      ChainKeeps(SubText(sub) + t, depth, None);
      if r.Ok? {
        SubDiverges(None, ParseSub(SubText(sub) + t, false, false, depth).filter, sub, r.filter);
      }
    case More(front, before, op, spelled, after, sub) =>
      var right := SubText(sub) + t;
      var u := OperatorText(op, spelled) + (after + right);
      assert ChainText(chain) + t == ChainText(front) + (before + u);
      if !ChainClear(front) {
        BadChainDiverges(front, before + u, depth);
        if r.Ok? {
          DivergeGrows([], Leaves(r.filter), Leaves(ChainFilter(front)), Leaves(r.filter), Leaves(ChainFilter(chain)));
        }
      } else if spelled && IsBare(front.sub) {
        SpelledIsRelation(before, op, after, right);
        BareFrontDiverges(front, before + u, depth);
        if r.Ok? {
          DivergeGrows([], Leaves(r.filter), Leaves(ChainFilter(front)), Leaves(r.filter), Leaves(ChainFilter(chain)));
        }
      } else {
        OperatorEnds(front.sub, before, op, spelled, after + right, depth);
        ChainParses(front, before + u, depth);
        OperatorContinues(op, spelled, after, right, depth, ChainFilter(front));
        BadSubDiverges(sub, t, depth);
        ChainKeeps(right, depth, Some((ChainFilter(front), op)));
        if r.Ok? {
          SubDiverges(Some((ChainFilter(front), op)), ParseSub(right, false, false, depth).filter, sub, r.filter);
        }
      }
  }

  /** A subexpression that diverges makes the whole diverge. */
  lemma SubDiverges(pending: Option<(Filter, Operator)>, f: Filter, sub: Sub, g: Filter)
    requires Diverge(Leaves(f), Leaves(SubFilter(sub))) && Leaves(Combined(pending, f)) <= Leaves(g)
    ensures Diverge(Leaves(g), Leaves(Combined(pending, SubFilter(sub))))
  {
    hide Diverge, SubFilter;
    var front := if pending.None? then [] else Leaves(pending.value.0);
    DivergeGrows(front, Leaves(f), Leaves(SubFilter(sub)), Leaves(g), Leaves(Combined(pending, SubFilter(sub))));
  }

  /** A chain that ends in a presence test, with text behind it that is read as a relation. */
  lemma BareFrontDiverges(front: Chain, u: string, depth: nat)
    requires ChainForm(front) && ChainClear(front) && IsBare(front.sub) && ScanRelation(Trim(u)).Some?
    ensures ChainText(front) + u != ""
    ensures var r := ParseChain(ChainText(front) + u, depth, None); r.Ok? ==> Diverge(Leaves(r.filter), Leaves(ChainFilter(front)))
  {
    hide ParseChain, ParseSub, Continue, SubText, Trim, IsBlank, OperatorText, Solid, EndsSub, SubClear, ScanRelation, Diverge,
      PlaceholderOk;
    var bare := front.sub;
    assert bare == Attribute([], bare.placeholder, None);
    ChainSolid(front, u);
    SubSolid(bare, u);
    BareReadsRelation(bare.placeholder, u, depth);
    var right, pending := SubText(bare) + u, if front.One? then None else Some((ChainFilter(front.chain), front.op));
    ChainKeeps(right, depth, pending);
    if front.More? {
      var v := OperatorText(front.op, front.spelled) + (front.after + right);
      assert ChainText(front) + u == ChainText(front.chain) + (front.before + v);
      OperatorEnds(front.chain.sub, front.before, front.op, front.spelled, front.after + right, depth);
      ChainParses(front.chain, front.before + v, depth);
      OperatorContinues(front.op, front.spelled, front.after, right, depth, ChainFilter(front.chain));
    }
    var r := ParseChain(right, depth, pending);
    if r.Ok? {
      var f := ParseSub(right, false, false, depth).filter;
      OneTestDiverges(f, bare);
      SubDiverges(pending, f, bare, r.filter);
    }
  }

  lemma OneTestDiverges(f: Filter, bare: Sub)
    requires f.Compare? && IsBare(bare)
    ensures Diverge(Leaves(f), Leaves(SubFilter(bare)))
  {
    assert Leaves(f)[0] != Leaves(SubFilter(bare))[0];
  }

  lemma BareText(p: Placeholder, u: string)
    ensures SubText(Attribute([], p, None)) + u == "%" + (PlaceholderText(p) + u)
  {
    hide PlaceholderText;
    assert SignsText([]) == "";
    assert "" + ("%" + (PlaceholderText(p) + "")) + u == "%" + (PlaceholderText(p) + u);
  }

  lemma OperatorIsWord(op: Operator)
    ensures IsWord(OperatorText(op, true))
  {
  }

  // ---------------------------------------------------------------------------------------------
  // Without white space behind opening percent signs, an error
  // ---------------------------------------------------------------------------------------------

  /** No white space stands between an opening percent sign and the name. */
  predicate SubTight(sub: Sub)
    decreases sub
  {
    match sub
    case Attribute(_, placeholder, _) => placeholder.lead == ""
    case Paren(_, _, chain, _) => ChainTight(chain)
  }

  predicate ChainTight(chain: Chain)
    decreases chain
  {
    match chain
    case One(sub) => SubTight(sub)
    case More(front, _, _, _, _, sub) => ChainTight(front) && SubTight(sub)
  }

  /** A character a subexpression can begin with. */
  predicate Opening(c: char)
  {
    c == '%' || c == '!' || c == '(' || c == 'n'
  }

  predicate StartsOpening(s: string)
  {
    s != "" && Opening(s[0])
  }

  /** Text that, white space aside, begins like a subexpression. */
  predicate Opens(s: string)
  {
    StartsOpening(Trim(s))
  }

  lemma NoOperatorAtOpening(p: string)
    requires StartsOpening(p)
    ensures ScanOperator(p).None?
  {
    hide Keyword;
    FirstCharKeyword(p, "and");
    FirstCharKeyword(p, "or");
  }

  lemma OpeningDoesNotContinue(s: string, depth: nat, f: Filter)
    requires Opens(s)
    ensures Continue(Trim(s), depth, f) == Fail
  {
    hide Trim, ScanOperator, ParseChain;
    NoOperatorAtOpening(Trim(s));
  }

  lemma GapOpens(gap: string, s: string)
    requires IsBlank(gap) && StartsOpening(s)
    ensures Opens(gap + s)
  {
    TrimGap(gap, s);
  }

  lemma NoRun(s: string)
    requires s != "" && !IsOperandChar(s[0])
    ensures OperandRun(s) == 0 && s[0..] == s
  {
  }

  /** Signs and core start with an opening character; behind the word of the first sign the rest does. */
  lemma SignedStarts(signs: seq<Sign>, core: string)
    requires core != "" && (core[0] == '%' || core[0] == '(')
    ensures StartsOpening(SignsText(signs) + core)
    ensures signs == [] || signs[0].Bang? ==> !IsOperandChar((SignsText(signs) + core)[0])
  {
    hide SignsText;
    SignsTextSteps(signs, core);
  }

  lemma NotRun(gap: string, v: string)
    requires IsGap(gap)
    ensures OperandRun("not" + (gap + v)) == 3 && OperandRun("ot" + (gap + v)) == 2
  {
    assert (gap + v)[0] == gap[0];
    OperandRunIs("not", gap + v);
    OperandRunIs("ot", gap + v);
  }

  /** The run of operand characters at the start of a subexpression stops in front of another opening. */
  lemma RunStopsAtOpening(signs: seq<Sign>, core: string)
    requires SignsOk(signs) && core != "" && (core[0] == '%' || core[0] == '(')
    ensures var s := SignsText(signs) + core; Opens(s[OperandRun(s)..])
  {
    hide Trim, SignsText, OperandRun, Opens, IsBlank;
    var s := SignsText(signs) + core;
    SignedStarts(signs, core);
    if signs != [] && signs[0].NotWord? {
      SignedStarts(signs[1..], core);
      SignsTextSteps(signs, core);
      assert SignOk(signs[0]);
      var gap, v := signs[0].gap, SignsText(signs[1..]) + core;
      NotRun(gap, v);
      assert s[3..] == gap + v;
      GapOpens(gap, v);
    } else {
      NoRun(s);
      OpeningOpens(s);
    }
  }

  lemma OpeningOpens(s: string)
    requires StartsOpening(s)
    ensures Opens(s)
  {
    TrimSolid(s);
  }

  /** The same with white space in front of the subexpression. */
  lemma RunStopsBehindGap(gap: string, signs: seq<Sign>, core: string)
    requires IsBlank(gap) && SignsOk(signs) && core != "" && (core[0] == '%' || core[0] == '(')
    ensures var s := gap + (SignsText(signs) + core); Opens(s[OperandRun(s)..])
  {
    hide Trim, SignsText, OperandRun, Opens;
    var v := SignsText(signs) + core;
    if gap == "" {
      assert gap + v == v;
      RunStopsAtOpening(signs, core);
    } else {
      assert (gap + v)[0] == gap[0];
      NoRun(gap + v);
      SignedStarts(signs, core);
      GapOpens(gap, v);
    }
  }

  lemma ParseOperandIs(c: char, v: string)
    requires c != '"'
    ensures ParseOperand([c] + v) == Operand(([c] + v)[..1 + OperandRun(v)], v[OperandRun(v)..])
  {
    assert ([c] + v)[1..] == v;
    assert ([c] + v)[1 + OperandRun(v)..] == v[OperandRun(v)..];
  }

  lemma SignsAsOperand(signs: seq<Sign>, core: string)
    requires SignsOk(signs) && signs != [] && core != "" && (core[0] == '%' || core[0] == '(')
    ensures var r := ParseOperand(SignsText(signs) + core); r.Operand? && Opens(r.rest)
  {
    hide SignsText, Trim, OperandRun, ParseOperand, IsBlank, Opens;
    SignsTextSteps(signs, core);
    assert SignOk(signs[0]);
    var gap, v := signs[0].gap, SignsText(signs[1..]) + core;
    if signs[0].Bang? {
      ParseOperandIs('!', gap + v);
      RunStopsBehindGap(gap, signs[1..], core);
    } else {
      SignedStarts(signs[1..], core);
      NotRun(gap, v);
      assert "not" + (gap + v) == ['n'] + ("ot" + (gap + v));
      ParseOperandIs('n', "ot" + (gap + v));
      assert ("ot" + (gap + v))[2..] == gap + v;
      GapOpens(gap, v);
    }
  }

  lemma AttributeAsOperand(sub: Sub, t: string)
    requires sub.Attribute? && PlaceholderOk(sub.placeholder) && SubTight(sub)
    ensures var r := ParseOperand(CoreText(sub) + t); r.Operand? && Opens(r.rest)
  {
    hide Trim, OperandRun, ParseOperand, TestText, Opens;
    var name, trail := sub.placeholder.name, sub.placeholder.trail;
    var close := "%" + ((if sub.test.Some? then sub.test.value.lead + TestText(sub.test.value) else "") + t);
    var after := trail + close;
    var v := name + after;
    assert CoreText(sub) + t == ['%'] + v;
    ParseOperandIs('%', v);
    assert after[0] == if trail == "" then '%' else trail[0];
    OperandRunIs(name, after);
    assert v[|name|..] == after;
    GapOpens(trail, close);
  }

  function FirstSub(chain: Chain): (sub: Sub)
  {
    match chain
    case One(s) => s
    case More(front, _, _, _, _, _) => FirstSub(front)
  }

  lemma {:induction false} FirstSubText(chain: Chain, t: string) returns (u: string)
    requires ChainForm(chain)
    ensures ChainText(chain) + t == SubText(FirstSub(chain)) + u && SubForm(FirstSub(chain))
    decreases chain
  {
    hide SubText, SubForm;
    if chain.One? {
      u := t;
    } else {
      var v := chain.before + (OperatorText(chain.op, chain.spelled) + (chain.after + SubText(chain.sub)));
      u := FirstSubText(chain.chain, v + t);
      assert ChainText(chain) + t == ChainText(chain.chain) + (v + t);
    }
  }

  lemma CoreStarts(sub: Sub, t: string)
    ensures SubText(sub) + t == SignsText(sub.signs) + (CoreText(sub) + t)
    ensures CoreText(sub) + t != "" && (CoreText(sub) + t)[0] == if sub.Attribute? then '%' else '('
  {
    hide SignsText;
  }

  lemma ParenAsOperand(sub: Sub, t: string)
    requires sub.Paren? && SubForm(sub)
    ensures var r := ParseOperand(CoreText(sub) + t); r.Operand? && Opens(r.rest)
  {
    hide Trim, OperandRun, ParseOperand, ChainText, SubText, SignsText, Opens, ChainForm;
    var v := ChainText(sub.chain) + (sub.close + (")" + t));
    assert CoreText(sub) + t == ['('] + (sub.open + v);
    ParseOperandIs('(', sub.open + v);
    var u := FirstSubText(sub.chain, sub.close + (")" + t));
    var first := FirstSub(sub.chain);
    CoreStarts(first, u);
    RunStopsBehindGap(sub.open, first.signs, CoreText(first) + u);
  }

  /** Read as an operand, the start of a subexpression leaves text that cannot follow a relation. */
  lemma SubAsOperand(sub: Sub, t: string)
    requires SubForm(sub) && SubTight(sub)
    ensures var r := ParseOperand(SubText(sub) + t); r.Operand? && Opens(r.rest)
    ensures Solid(SubText(sub) + t)
  {
    hide ParseOperand, SubText, SignsText, Trim, OperandRun, CoreText, Opens, Solid, PlaceholderOk;
    SubSolid(sub, t);
    CoreStarts(sub, t);
    if sub.signs != [] {
      SignsAsOperand(sub.signs, CoreText(sub) + t);
    } else {
      SignsTextSteps([], CoreText(sub) + t);
      if sub.Attribute? {
        AttributeAsOperand(sub, t);
      } else {
        ParenAsOperand(sub, t);
      }
    }
  }

  /** A presence test, a spelled operator and a subexpression do not parse. */
  lemma SpelledAfterBareFails(p: Placeholder, before: string, op: Operator, after: string, sub: Sub, t: string, depth: nat,
                              pending: Option<(Filter, Operator)>)
    requires PlaceholderOk(p) && IsBlank(before) && IsGap(after) && SubForm(sub) && SubTight(sub)
    ensures var s := SubText(Attribute([], p, None)) + (before + (OperatorText(op, true) + (after + (SubText(sub) + t))));
      s != "" && ParseChain(s, depth, pending) == Fail
  {
    hide SubForm, SubTight, Trim, ParseOperand, ScanRelation, Continue, ParseRelation, ParseSub, Opens, PlaceholderOk, PlaceholderText;
    var word := OperatorText(op, true);
    var right := SubText(sub) + t;
    var u := before + (word + (after + right));
    BareText(p, u);
    AttributeStarts(p, u, false, false, depth);
    OperatorIsRelation(p.name, before, op, after, right);
    SubAsOperand(sub, t);
    TrimGap(after, right);
    var r := ParseOperand(right);
    OpeningDoesNotContinue(r.rest, depth, Combined(pending, Compare(p.name, Custom(word), r.text)));
  }

  lemma OperatorIsRelation(name: string, before: string, op: Operator, after: string, right: string)
    requires IsBlank(before) && IsGap(after)
    ensures Trim(before + (OperatorText(op, true) + (after + right))) == OperatorText(op, true) + (after + right)
    ensures ParseRelation(OperatorText(op, true) + (after + right), name)
         == var r := ParseOperand(Trim(after + right));
            if r.NoOperand? then Fail else Ok(r.rest, Compare(name, Custom(OperatorText(op, true)), r.text))
  {
    hide ScanRelation, ParseOperand, Trim, OperatorText;
    var word := OperatorText(op, true);
    OperatorIsWord(op);
    RelationScans(Custom(word), after, right);
    TrimGap(before, word + (after + right));
    KeywordReads(word, after, right);
  }

  lemma {:induction false} BadSubFails(sub: Sub, t: string, depth: nat)
    requires SubForm(sub) && SubTight(sub) && !SubClear(sub)
    ensures ParseSub(SubText(sub) + t, false, false, depth) == Fail
    decreases sub
  {
    hide ParseSub, ParseChain, SignsText, ChainText, SubText, Trim, IsBlank;
    var end := sub.close + (")" + t);
    var u := ChainText(sub.chain) + end;
    ParenText(sub, t);
    SignsParse(sub.signs, "(" + (sub.open + u), false, false, depth);
    ChainSolid(sub.chain, end);
    ParenStarts(sub.open, u, Odd(sub.signs), sub.signs != [], depth);
    BadChainFails(sub.chain, end, depth + 1);
  }

  lemma {:induction false} BadChainFails(chain: Chain, t: string, depth: nat)
    requires ChainForm(chain) && ChainTight(chain) && !ChainClear(chain)
    ensures ChainText(chain) + t != ""
    ensures ParseChain(ChainText(chain) + t, depth, None) == Fail
    decreases chain
  {
    hide ParseSub, Continue, SubText, Trim, IsBlank, OperatorText, SubClear, SubForm, SubTight, Solid, EndsSub;
    ChainSolid(chain, t);
    SubSolid(chain.sub, t);
    match chain
    case One(sub) =>
      BadSubFails(sub, t, depth);
    case More(front, before, op, spelled, after, sub) =>
      var right := SubText(sub) + t;
      var u := OperatorText(op, spelled) + (after + right);
      assert ChainText(chain) + t == ChainText(front) + (before + u);
      if !ChainClear(front) {
        BadChainFails(front, before + u, depth);
      } else if spelled && IsBare(front.sub) {
        BareFrontFails(front, before, op, after, sub, t, depth);
      } else {
        OperatorEnds(front.sub, before, op, spelled, after + right, depth);
        ChainParses(front, before + u, depth);
        OperatorContinues(op, spelled, after, right, depth, ChainFilter(front));
        BadSubFails(sub, t, depth);
      }
  }

  lemma BareFrontFails(front: Chain, before: string, op: Operator, after: string, sub: Sub, t: string, depth: nat)
    requires ChainForm(front) && ChainClear(front) && IsBare(front.sub) && IsBlank(before) && IsGap(after)
    requires SubForm(sub) && SubTight(sub)
    ensures var s := ChainText(front) + (before + (OperatorText(op, true) + (after + (SubText(sub) + t))));
      s != "" && ParseChain(s, depth, None) == Fail
  {
    hide ParseChain, Continue, SubText, Trim, IsBlank, OperatorText, Solid, EndsSub, SubClear, SubTight, PlaceholderOk;
    var u := before + (OperatorText(op, true) + (after + (SubText(sub) + t)));
    var bare := front.sub;
    assert bare == Attribute([], bare.placeholder, None);
    SpelledAfterBareFails(bare.placeholder, before, op, after, sub, t, depth,
                          if front.One? then None else Some((ChainFilter(front.chain), front.op)));
    if front.More? {
      var right := SubText(bare) + u;
      SubSolid(bare, u);
      var v := OperatorText(front.op, front.spelled) + (front.after + right);
      assert ChainText(front) + u == ChainText(front.chain) + (front.before + v);
      OperatorEnds(front.chain.sub, front.before, front.op, front.spelled, front.after + right, depth);
      ChainParses(front.chain, front.before + v, depth);
      OperatorContinues(front.op, front.spelled, front.after, right, depth, ChainFilter(front.chain));
    }
  }

  // ---------------------------------------------------------------------------------------------
  // When expressions parse
  // ---------------------------------------------------------------------------------------------

  /**
   An expression parses to the filter it means exactly when no presence test is followed by a spelled operator. The others
   are refused where no white space follows an opening percent sign.
   */
  lemma ParsesIff(lead: string, chain: Chain, trail: string)
    requires IsBlank(lead) && ChainForm(chain) && IsBlank(trail)
    ensures ParseFilter(lead + (ChainText(chain) + trail)) == HasFilter(ChainFilter(chain)) <==> ChainClear(chain)
    ensures ChainTight(chain) && !ChainClear(chain) ==> ParseFilter(lead + (ChainText(chain) + trail)) == Error
  {
    hide ChainText, ParseChain, ChainForm, ParseFilter, EndsSub, Trim, ChainTight;
    if ChainClear(chain) {
      ParsesToMeaning(lead, chain, trail, _ => true);
    } else {
      TopLevel(lead, chain, trail);
      BadChainDiverges(chain, trail, 0);
      if ChainTight(chain) {
        BadChainFails(chain, trail, 0);
      }
    }
  }

  /** For example, "%a% and %b%" is refused while "%a%&%b%" is accepted. */
  lemma SpelledOperatorExample()
    ensures ParseFilter("%a% and %b%") == Error
    ensures ParseFilter("%a%&%b%") == HasFilter(Binary(And, Exists("a"), Exists("b")))
  {
    var p, q := Placeholder("", "a", ""), Placeholder("", "b", "");
    var a, b := Attribute([], p, None), Attribute([], q, None);
    var spelled, symbol := More(One(a), " ", And, true, " ", b), More(One(a), "", And, false, "", b);
    BareText(p, " and %b%");
    BareText(p, "&%b%");
    BareText(q, "");
    assert "" + (ChainText(spelled) + "") == "%a% and %b%" && "" + (ChainText(symbol) + "") == "%a%&%b%" by {
      hide SubText;
    }
    hide ParseFilter, ChainText;
    assert !Odd([]);
    ParsesIff("", spelled, "");
    ParsesIff("", symbol, "");
  }

  /**
   A presence test of `p`, an operator, and a custom relation named like `q` of an attribute that is itself named like an
   operator: as in "%a% and % and % contains %".
   */
  function Misreadable(p: Placeholder, op: Operator, named: Operator, q: Placeholder): (chain: Chain)
  {
    More(One(Attribute([], p, None)), " ", op, true, " ",
         Attribute([], Placeholder(" ", OperatorText(named, true), " "), Some(Test(q.lead, Custom(q.name), q.trail, Word("%")))))
  }

  function MisreadText(p: Placeholder, op: Operator, named: Operator, q: Placeholder): (s: string)
  {
    var second := "%" + PlaceholderText(q);
    "%" + (PlaceholderText(p) + (" " + (OperatorText(op, true) + (" " + (['%'] + (" " + (OperatorText(named, true) + (" " + second))))))))
  }

  /** With white space inside the percent signs the parser may accept an expression and return another filter. */
  lemma AcceptedAsAnother(p: Placeholder, op: Operator, named: Operator, q: Placeholder)
    requires PlaceholderOk(p) && PlaceholderOk(q)
    ensures var chain, word := Misreadable(p, op, named, q), OperatorText(named, true);
      && ChainForm(chain)
      && ChainFilter(chain) == Binary(op, Exists(p.name), Compare(word, Custom(q.name), "%"))
      && ParseFilter(ChainText(chain)) == HasFilter(Binary(named, Compare(p.name, Custom(OperatorText(op, true)), "%"), Exists(q.name)))
  {
    hide ParseFilter, PlaceholderText, ChainText;
    MisreadForm(p, op, named, q);
    MisreadSpelling(p, op, named, q);
    MisreadParse(p, op, named, q);
    assert !Odd([]);
    var chain := Misreadable(p, op, named, q);
    assert SubFilter(chain.chain.sub) == Exists(p.name) && ChainFilter(chain.chain) == SubFilter(chain.chain.sub);
  }

  lemma MisreadForm(p: Placeholder, op: Operator, named: Operator, q: Placeholder)
    requires PlaceholderOk(p) && PlaceholderOk(q)
    ensures ChainForm(Misreadable(p, op, named, q))
  {
    hide OperatorText;
    OperatorIsWord(named);
    var chain := Misreadable(p, op, named, q);
    assert TestOk(chain.sub.test.value);
    assert SubForm(chain.sub) && SubForm(chain.chain.sub);
    assert ChainForm(chain.chain);
  }

  lemma MisreadSpelling(p: Placeholder, op: Operator, named: Operator, q: Placeholder)
    ensures ChainText(Misreadable(p, op, named, q)) == MisreadText(p, op, named, q)
  {
    hide OperatorText, SubText;
    var word := OperatorText(named, true);
    var chain := Misreadable(p, op, named, q);
    var rest := " " + (OperatorText(op, true) + (" " + SubText(chain.sub)));
    BareText(p, rest);
    assert SubText(chain.sub) == ['%'] + (" " + (word + (" " + ("%" + PlaceholderText(q))))) by {
      NamedText(word, q);
    }
    assert ChainText(One(chain.chain.sub)) == SubText(chain.chain.sub);
  }

  lemma NamedText(word: string, q: Placeholder)
    ensures SubText(Attribute([], Placeholder(" ", word, " "), Some(Test(q.lead, Custom(q.name), q.trail, Word("%")))))
         == ['%'] + (" " + (word + (" " + ("%" + PlaceholderText(q)))))
  {
    assert SignsText([]) == "";
    hide SignsText;
  }

  lemma MisreadParse(p: Placeholder, op: Operator, named: Operator, q: Placeholder)
    requires PlaceholderOk(p) && PlaceholderOk(q)
    ensures ParseFilter(MisreadText(p, op, named, q))
         == HasFilter(Binary(named, Compare(p.name, Custom(OperatorText(op, true)), "%"), Exists(q.name)))
  {
    hide ParseSub, ParseRelation, ParseOperand, ScanRelation, Continue, OperandRun, Trim, OperatorText, PlaceholderText, PlaceholderOk;
    var second := "%" + PlaceholderText(q);
    var rest := " " + (OperatorText(named, true) + (" " + second));
    var right := ['%'] + rest;
    var u := " " + (OperatorText(op, true) + (" " + right));
    var text := MisreadText(p, op, named, q);
    assert text == "%" + (PlaceholderText(p) + u);
    TrimSolid(text);
    AttributeStarts(p, u, false, false, 0);
    OperatorIsRelation(p.name, " ", op, " ", right);
    PercentOperand(rest);
    TrimGap(" ", right);
    var f := Compare(p.name, Custom(OperatorText(op, true)), "%");
    assert ParseSub(text, false, false, 0) == Ok(rest, f);
    OperatorStarts(named, true, " " + second);
    TrimGap(" ", OperatorText(named, true) + (" " + second));
    OperatorContinues(named, true, " ", second, 0, f);
    LastTest(q, f, named);
  }

  lemma PercentOperand(rest: string)
    requires rest != "" && rest[0] == ' '
    ensures ParseOperand(['%'] + rest) == Operand("%", rest)
  {
    hide OperandRun;
    NoRun(rest);
    ParseOperandIs('%', rest);
  }

  lemma LastTest(q: Placeholder, f: Filter, op: Operator)
    requires PlaceholderOk(q)
    ensures ParseChain("%" + PlaceholderText(q), 0, Some((f, op))) == Ok("", Binary(op, f, Exists(q.name)))
  {
    hide ParseSub, ScanRelation, PlaceholderText, PlaceholderOk;
    assert PlaceholderText(q) + "" == PlaceholderText(q);
    AttributeStarts(q, "", false, false, 0);
    EmptyOrSolid("");
  }
}
