/**
 Which texts are filters: every text that the parser accepts is a written expression, and the filter it returns is what
 that expression stands for. With the converse this says for every text whether it is accepted, and as what.
 */
module FilterAcceptance {
  import opened Wrappers
  import opened FilterText
  import opened FilterGrammar
  import FilterMisreading

  // ---------------------------------------------------------------------------------------------
  // Words and white space
  // ---------------------------------------------------------------------------------------------

  lemma {:induction false} TrimSplits(s: string) returns (gap: string)
    ensures s == gap + Trim(s) && IsBlank(gap) && Solid(Trim(s))
    decreases |s|
  {
    gap := "";
    if s != "" && IsSpace(s[0]) {
      gap := TrimSplits(s[1..]);
      assert s == [s[0]] + s[1..];
      gap := [s[0]] + gap;
    }
  }

  lemma {:induction false} WordRunIsWord(s: string)
    ensures forall i :: 0 <= i < WordRun(s) ==> IsWordChar(s[i])
    decreases |s|
  {
    if s != "" && IsWordChar(s[0]) {
      WordRunIsWord(s[1..]);
    }
  }

  lemma {:induction false} OperandRunIsOperand(s: string)
    ensures forall i :: 0 <= i < OperandRun(s) ==> IsOperandChar(s[i])
    decreases |s|
  {
    if s != "" && IsOperandChar(s[0]) {
      OperandRunIsOperand(s[1..]);
    }
  }

  /** White space behind a keyword. */
  lemma KeywordGap(s: string, word: string) returns (gap: string)
    requires Keyword(s, word)
    ensures gap != "" && IsBlank(gap) && s == word + (gap + Trim(s[|word|..])) && Solid(Trim(s[|word|..]))
  {
    gap := TrimSplits(s[|word|..]);
    assert s[|word|..][0] == s[|word|];
    assert s == word + s[|word|..];
  }

  // ---------------------------------------------------------------------------------------------
  // Operands and relations
  // ---------------------------------------------------------------------------------------------

  lemma {:induction false} QuotedRunPrefix(s: string)
    requires QuotedRun(s).Some?
    ensures QuotedRun(s[..QuotedRun(s).value] + "\"") == QuotedRun(s)
    decreases |s|
  {
    var n := QuotedRun(s).value;
    var t := s[..n] + "\"";
    if s[0] == '"' {
      assert t == "\"";
    } else if s[0] == '\\' {
      QuotedRunPrefix(s[2..]);
      assert t[0] == '\\' && t[2..] == s[2..][..n - 2] + "\"";
    } else {
      QuotedRunPrefix(s[1..]);
      assert t[0] == s[0] && t[1..] == s[1..][..n - 1] + "\"";
    }
  }

  /** A parsed operand is written as a word or in quotes; a word goes on as long as it can. */
  lemma OperandIsWritten(s: string) returns (operand: OperandText)
    requires ParseOperand(s).Operand? && Solid(s)
    ensures var r := ParseOperand(s);
      && OperandOk(operand) && operand.text == r.text && s == OperandSpelling(operand) + r.rest
      && (operand.Word? && r.rest != "" ==> !IsOperandChar(r.rest[0]))
  {
    hide QuotedRun, OperandRun;
    if s[0] == '"' {
      var n := QuotedRun(s[1..]).value;
      QuotedRunPrefix(s[1..]);
      operand := Quoted(s[1..][..n]);
      assert s[n + 1] == s[1..][n] == '"';
      assert s == "\"" + s[1..][..n] + "\"" + s[n + 2..];
    } else {
      var n := OperandRun(s[1..]);
      OperandRunIsOperand(s[1..]);
      operand := Word(s[..n + 1]);
      assert forall i :: 1 <= i < n + 1 ==> s[i] == s[1..][i - 1];
      assert s == s[..n + 1] + s[n + 1..];
      assert n < |s[1..]| ==> s[n + 1..][0] == s[1..][n];
    }
  }

  /** A relation that is scanned is written, and white space or a character that is no part of a word follows it. */
  lemma RelationIsWritten(s: string) returns (gap: string)
    requires ScanRelation(s).Some?
    ensures var (relation, n) := ScanRelation(s).value;
      && s == RelationText(relation) + (gap + Trim(s[n..])) && IsBlank(gap) && Solid(Trim(s[n..]))
      && (relation.Custom? ==> IsWord(relation.word))
      && (gap == "" ==> relation.Custom? && (Trim(s[n..]) != "" ==> !IsWordChar(Trim(s[n..])[0])))
  {
    hide Trim, ScanRelation;
    var (relation, n) := ScanRelation(s).value;
    ScannedIs(s);
    if relation.Custom? {
      gap := TrimSplits(s[n..]);
      assert s == s[..n] + s[n..];
      assert n < |s| ==> s[n..][0] == s[n];
    } else {
      gap := KeywordGap(s, RelationText(relation));
    }
  }

  lemma ScannedIs(s: string)
    requires ScanRelation(s).Some?
    ensures var (relation, n) := ScanRelation(s).value;
      && (!relation.Custom? ==> n == |RelationText(relation)| && Keyword(s, RelationText(relation)))
      && (relation.Custom? ==> relation.word == s[..n] && IsWord(s[..n]) && (n < |s| ==> !IsWordChar(s[n])))
  {
    hide Keyword, WordRun, IsWordChar;
    WordRunIsWord(s);
  }

  /** What is parsed behind an attribute is a test, or nothing. */
  lemma TestIsWritten(s: string, name: string) returns (test: Option<Test>)
    requires ParseRelation(s, name).Ok? && Solid(s)
    ensures var r := ParseRelation(s, name);
      && (test.None? ==> r.rest == s && r.filter == Exists(name))
      && (test.Some? ==>
            && TestOk(test.value) && test.value.lead == "" && s == TestText(test.value) + r.rest
            && r.filter == Compare(name, test.value.relation, test.value.operand.text)
            && (test.value.operand.Word? && r.rest != "" ==> !IsOperandChar(r.rest[0])))
  {
    hide ScanRelation, ParseOperand, Trim, OperandOk, IsOperandChar;
    test := None;
    if ScanRelation(s).Some? {
      var (relation, n) := ScanRelation(s).value;
      var gap := RelationIsWritten(s);
      var t := Trim(s[n..]);
      var operand := OperandIsWritten(t);
      test := Some(Test("", relation, gap, operand));
      assert OperandSpelling(operand) != "" by {
        SpellingBegins(operand);
      }
      assert t[0] == OperandSpelling(operand)[0];
      assert s == TestText(test.value) + ParseOperand(t).rest;
    }
  }

  lemma SpellingBegins(operand: OperandText)
    requires OperandOk(operand)
    ensures OperandSpelling(operand) != ""
  {
    hide QuotedRun;
  }

  /** What is parsed as an attribute is a placeholder with its closing percent sign, and white space. */
  lemma AttributeIsWritten(s: string) returns (p: Placeholder, gap: string)
    requires ParseAttribute(s).Some?
    ensures var (name, rest) := ParseAttribute(s).value;
      PlaceholderOk(p) && p.name == name && s == PlaceholderText(p) + (gap + rest) && IsBlank(gap) && Solid(rest)
  {
    hide Trim, WordRun;
    var lead := TrimSplits(s);
    var start := Trim(s);
    var n := WordRun(start);
    WordRunIsWord(start);
    var trail := TrimSplits(start[n..]);
    var q := Trim(start[n..]);
    gap := TrimSplits(q[1..]);
    p := Placeholder(lead, start[..n], trail);
    assert start == start[..n] + start[n..];
    assert q == "%" + q[1..];
  }

  // ---------------------------------------------------------------------------------------------
  // Expressions
  // ---------------------------------------------------------------------------------------------

  /** The filter of a subexpression under signs read before it. */
  function Under(sub: Sub, negated: bool): (f: Filter)
  {
    var core := SubFilter(sub.(signs := []));
    if negated != Odd(sub.signs) then Not(core) else core
  }

  /** A subexpression that was read up to `rest`; white space may have been skipped behind it. */
  ghost predicate ReadsSub(s: string, sub: Sub, gap: string, rest: string, present: bool)
  {
    && SubForm(sub) && s == SubText(sub) + (gap + rest) && IsBlank(gap)
    && (present && sub.Attribute? ==> sub.test.None?)
    && (EndsInWord(sub) && gap == "" && rest != "" ==> !IsOperandChar(rest[0]))
  }

  /** The forms of an attribute, with a test and without one. */
  lemma PresenceReads(s: string, p: Placeholder, gap: string, rest: string)
    requires PlaceholderOk(p) && IsBlank(gap) && s == PlaceholderText(p) + (gap + rest)
    ensures ReadsSub("%" + s, Attribute([], p, None), gap, rest, true)
  {
    hide PlaceholderOk, PlaceholderText, IsBlank;
    assert SubText(Attribute([], p, None)) == "" + ("%" + (PlaceholderText(p) + ""));
  }

  lemma TestReads(s: string, p: Placeholder, test: Test, rest: string)
    requires PlaceholderOk(p) && TestOk(test) && s == PlaceholderText(p) + (test.lead + (TestText(test) + rest))
    requires test.operand.Word? && rest != "" ==> !IsOperandChar(rest[0])
    ensures ReadsSub("%" + s, Attribute([], p, Some(test)), "", rest, false)
  {
    hide PlaceholderOk, PlaceholderText, TestOk, TestText, IsOperandChar;
    assert SubText(Attribute([], p, Some(test))) == "" + ("%" + (PlaceholderText(p) + (test.lead + TestText(test))));
  }

  lemma AttributeSubIsWritten(s: string, negated: bool, present: bool) returns (sub: Sub, gap: string)
    requires ParseAttributeSub(s, negated, present).Ok?
    ensures var r := ParseAttributeSub(s, negated, present);
      ReadsSub("%" + s, sub, gap, r.rest, present) && r.filter == Under(sub, negated) && sub.signs == []
  {
    hide ParseAttribute, ParseRelation, PlaceholderOk, PlaceholderText, TestOk, IsOperandChar, SubForm, SubText, IsBlank, TestText;
    var (name, rest) := ParseAttribute(s).value;
    var p, space := AttributeIsWritten(s);
    var test: Option<Test> := None;
    if !present {
      test := TestIsWritten(rest, name);
    }
    if test.None? {
      gap, sub := space, Attribute([], p, None);
      PresenceReads(s, p, gap, rest);
    } else {
      LeadOk(test.value, space);
      var full := test.value.(lead := space);
      gap, sub := "", Attribute([], p, Some(full));
      TestReads(s, p, full, ParseRelation(rest, name).rest);
    }
  }

  lemma LeadOk(test: Test, space: string)
    requires TestOk(test) && IsBlank(space)
    ensures TestOk(test.(lead := space)) && TestText(test.(lead := space)) == TestText(test)
  {
  }

  function SignText(sign: Sign): (s: string)
  {
    if sign.Bang? then "!" else "not"
  }

  lemma SignedForm(sign: Sign, sub: Sub)
    requires SignOk(sign) && SubForm(sub) && (sub.Attribute? ==> sub.test.None?)
    ensures var sub' := sub.(signs := [sign] + sub.signs);
      SubForm(sub') && !EndsInWord(sub') && SubText(sub') == SignText(sign) + (sign.gap + SubText(sub))
  {
    hide ChainForm, ChainText, PlaceholderOk, PlaceholderText, SignOk;
    var signs := [sign] + sub.signs;
    assert signs[1..] == sub.signs;
    assert SignsText(signs) == SignText(sign) + (sign.gap + SignsText(sub.signs));
    assert CoreText(sub.(signs := signs)) == CoreText(sub);
    assert SignsOk(signs);
  }

  lemma SignedUnder(sign: Sign, sub: Sub, negated: bool)
    ensures Under(sub.(signs := [sign] + sub.signs), negated) == Under(sub, !negated)
  {
    hide ChainFilter;
  }

  /** A sign in front of a subexpression that has signs, or is not compared. */
  lemma OneSign(sign: Sign, t: string, sub: Sub, gap: string, rest: string)
    requires SignOk(sign) && ReadsSub(t, sub, gap, rest, true)
    ensures ReadsSub(SignText(sign) + (sign.gap + t), sub.(signs := [sign] + sub.signs), gap, rest, true)
  {
    hide SubForm, SubText, IsBlank, EndsInWord, SignText, SignOk;
    assert SubForm(sub) && (sub.Attribute? ==> sub.test.None?);
    SignedForm(sign, sub);
  }

  lemma SubFilterUnder(sub: Sub)
    ensures Under(sub, false) == SubFilter(sub)
  {
    hide ChainFilter;
  }

  /** The text behind an expression: in parentheses it begins with the closing one. */
  function Closing(depth: nat, rest: string): (s: string)
  {
    if depth > 0 then ")" + rest else rest
  }

  lemma OperatorIsWritten(p: string) returns (spelled: bool, after: string)
    requires p != "" && ScanOperator(p).Some?
    ensures var (op, n) := ScanOperator(p).value;
      && p == OperatorText(op, spelled) + (after + Trim(p[n..])) && IsBlank(after) && Solid(Trim(p[n..]))
      && (spelled ==> after != "" && IsOperandChar(p[0]))
  {
    hide Trim;
    var (op, n) := ScanOperator(p).value;
    if p[0] == '&' || p[0] == '|' {
      spelled := false;
      after := TrimSplits(p[n..]);
      assert p == [p[0]] + p[1..];
    } else {
      spelled := true;
      after := KeywordGap(p, OperatorText(op, true));
    }
  }

  lemma {:induction false} SubIsWritten(s: string, negated: bool, present: bool, depth: nat) returns (sub: Sub, gap: string)
    requires ParseSub(s, negated, present, depth).Ok?
    ensures var r := ParseSub(s, negated, present, depth);
      ReadsSub(s, sub, gap, r.rest, present) && r.filter == Under(sub, negated)
    decreases |s|, 0
  {
    hide ParseAttributeSub, ParseNested, SubForm, SubText, IsBlank, EndsInWord, Keyword, Trim, Under, ChainText, ChainForm, ChainFilter;
    if s[0] == '%' {
      assert s == "%" + s[1..];
      sub, gap := AttributeSubIsWritten(s[1..], negated, present);
    } else if s[0] == '!' {
      var space := TrimSplits(s[1..]);
      assert s == "!" + s[1..];
      sub, gap := SubIsWritten(Trim(s[1..]), !negated, true, depth);
      OneSign(Bang(space), Trim(s[1..]), sub, gap, ParseSub(s, negated, present, depth).rest);
      SignedUnder(Bang(space), sub, negated);
      sub := sub.(signs := [Bang(space)] + sub.signs);
    } else if Keyword(s, "not") {
      var space := KeywordGap(s, "not");
      sub, gap := SubIsWritten(Trim(s[3..]), !negated, true, depth);
      OneSign(NotWord(space), Trim(s[3..]), sub, gap, ParseSub(s, negated, present, depth).rest);
      SignedUnder(NotWord(space), sub, negated);
      sub := sub.(signs := [NotWord(space)] + sub.signs);
    } else {
      assert s == "(" + s[1..];
      var open, chain, close := NestedIsWritten(s[1..], depth + 1);
      gap := "";
      sub := Paren([], open, chain, close);
      ParenIsWritten(s, sub, ParseSub(s, negated, present, depth).rest);
    }
  }

  lemma ParenIsWritten(s: string, sub: Sub, rest: string)
    requires sub.Paren? && sub.signs == [] && ChainForm(sub.chain) && IsBlank(sub.open) && IsBlank(sub.close)
    requires s == "(" + (sub.open + (ChainText(sub.chain) + (sub.close + (")" + rest))))
    ensures ReadsSub(s, sub, "", rest, true) && Under(sub, false) == ChainFilter(sub.chain) && Under(sub, true) == Not(ChainFilter(sub.chain))
  {
    hide ChainForm, ChainText, ChainFilter, IsBlank;
    assert SubText(sub) == "(" + (sub.open + (ChainText(sub.chain) + (sub.close + ")")));
    assert IsBlank("") by {
      NothingIsBlank();
    }
  }

  lemma NothingIsBlank()
    ensures IsBlank("")
  {
  }

  lemma {:induction false} NestedIsWritten(s: string, depth: nat) returns (open: string, chain: Chain, close: string)
    requires depth > 0 && ParseNested(s, depth).Ok?
    ensures var r := ParseNested(s, depth);
      && ChainForm(chain) && ChainFilter(chain) == r.filter && IsBlank(open) && IsBlank(close)
      && s == open + (ChainText(chain) + (close + (")" + r.rest)))
    decreases |s|, 2
  {
    hide ParseChain, Trim, ChainForm, ChainText, ChainFilter, IsBlank;
    open := TrimSplits(s);
    chain, close := ChainIsWritten(Trim(s), depth);
  }

  lemma {:induction false} ChainIsWritten(s: string, depth: nat) returns (chain: Chain, close: string)
    requires s != "" && ParseChain(s, depth, None).Ok?
    ensures var r := ParseChain(s, depth, None);
      && ChainForm(chain) && ChainFilter(chain) == r.filter && IsBlank(close)
      && s == ChainText(chain) + (close + Closing(depth, r.rest))
    decreases |s|, 1
  {
    hide ParseSub, Continue, Trim, SubForm, SubText, SubFilter, Closing;
    var sub, gap := SubIsWritten(s, false, false, depth);
    SubFilterUnder(sub);
    var rest := ParseSub(s, false, false, depth).rest;
    var space := SpacesJoin(gap, rest);
    chain, close := ContinueIsWritten(Trim(rest), depth, One(sub), space);
  }

  /** Behind a subexpression that is neither the end nor in front of a closing parenthesis there is an operator. */
  lemma ContinueSteps(p: string, depth: nat, f: Filter)
    requires Continue(p, depth, f).Ok? && p != "" && p[0] != ')'
    ensures ScanOperator(p).Some?
    ensures var (op, n) := ScanOperator(p).value;
      var sub := ParseSub(Trim(p[n..]), false, false, depth);
      sub.Ok? && |Trim(p[n..])| < |p| && Continue(p, depth, f) == Continue(Trim(sub.rest), depth, Binary(op, f, sub.filter))
  {
    hide ParseSub, ScanOperator;
  }

  lemma ContinueEnds(p: string, depth: nat, f: Filter)
    requires Continue(p, depth, f).Ok? && (p == "" || p[0] == ')')
    ensures var r := Continue(p, depth, f); r.filter == f && p == Closing(depth, r.rest)
  {
    assert p != "" ==> p == ")" + p[1..];
  }

  lemma MoreIsWritten(more: Chain, p: string, u: string)
    requires more.More? && p == OperatorText(more.op, more.spelled) + (more.after + (SubText(more.sub) + u))
    ensures ChainText(more.chain) + (more.before + p) == ChainText(more) + u
  {
    hide SubText, OperatorText;
  }

  lemma MoreIsForm(more: Chain, p: string)
    requires more.More? && ChainForm(more.chain) && SubForm(more.sub) && IsBlank(more.before) && IsBlank(more.after)
    requires more.spelled ==> more.after != "" && p != "" && IsOperandChar(p[0])
    requires EndsInWord(more.chain.sub) && more.before == "" && p != "" ==> !IsOperandChar(p[0])
    ensures ChainForm(more)
  {
    hide SubForm, IsBlank, IsOperandChar;
  }

  lemma SpacesJoin(gap: string, rest: string) returns (space: string)
    requires IsBlank(gap)
    ensures IsBlank(space) && gap + rest == space + Trim(rest)
    ensures space == "" ==> gap == "" && Trim(rest) == rest
  {
    hide Trim;
    var more := TrimSplits(rest);
    space := gap + more;
    assert space == "" ==> more == "";
  }

  lemma {:induction false} ContinueIsWritten(p: string, depth: nat, front: Chain, before: string) returns (chain: Chain, close: string)
    requires Continue(p, depth, ChainFilter(front)).Ok? && ChainForm(front) && IsBlank(before)
    requires EndsInWord(front.sub) && before == "" && p != "" ==> !IsOperandChar(p[0])
    ensures var r := Continue(p, depth, ChainFilter(front));
      && ChainForm(chain) && ChainFilter(chain) == r.filter && IsBlank(close)
      && ChainText(front) + (before + p) == ChainText(chain) + (close + Closing(depth, r.rest))
    decreases |p|, 2
  {
    hide ParseSub, Trim, SubForm, SubText, SubFilter, ScanOperator, IsOperandChar, Continue, ChainForm, ChainText, Closing, IsBlank,
      OperatorText;
    if p == "" || p[0] == ')' {
      chain, close := front, before;
      ContinueEnds(p, depth, ChainFilter(front));
    } else {
      ContinueSteps(p, depth, ChainFilter(front));
      var (op, n) := ScanOperator(p).value;
      var spelled, after := OperatorIsWritten(p);
      var q := Trim(p[n..]);
      var sub, gap := SubIsWritten(q, false, false, depth);
      SubFilterUnder(sub);
      var rest := ParseSub(q, false, false, depth).rest;
      var space := SpacesJoin(gap, rest);
      var more := More(front, before, op, spelled, after, sub);
      MoreIsWritten(more, p, space + Trim(rest));
      MoreIsForm(more, p);
      chain, close := ContinueIsWritten(Trim(rest), depth, more, space);
    }
  }

  // ---------------------------------------------------------------------------------------------
  // Whole texts
  // ---------------------------------------------------------------------------------------------

  lemma AcceptedIsWritten(s: string) returns (lead: string, chain: Chain, trail: string)
    requires ParseFilter(s).HasFilter?
    ensures IsBlank(lead) && ChainForm(chain) && IsBlank(trail) && s == lead + (ChainText(chain) + trail)
    ensures ParseFilter(s) == HasFilter(ChainFilter(chain))
  {
    hide ParseChain, Trim, ChainForm, ChainText, ChainFilter, IsBlank;
    lead := TrimSplits(s);
    chain, trail := ChainIsWritten(Trim(s), 0);
    assert trail + "" == trail;
  }

  /** An expression that stands for a filter, with white space around it, in which no presence test precedes a spelled operator. */
  ghost predicate Written(s: string, lead: string, chain: Chain, trail: string, f: Filter)
  {
    && IsBlank(lead) && ChainForm(chain) && ChainClear(chain) && IsBlank(trail)
    && s == lead + (ChainText(chain) + trail) && ChainFilter(chain) == f
  }

  /**
   For every text and filter: the parser returns the filter exactly when the text is an expression that stands for it, with
   white space around it, and no presence test in it is followed by a spelled operator.
   */
  lemma AcceptsIff(s: string, f: Filter)
    ensures ParseFilter(s) == HasFilter(f) <==> exists lead, chain, trail :: Written(s, lead, chain, trail, f)
  {
    hide ParseFilter, ChainForm, ChainText, ChainFilter, IsBlank, ChainClear;
    if ParseFilter(s) == HasFilter(f) {
      var lead, chain, trail := AcceptedIsWritten(s);
      FilterMisreading.ParsesIff(lead, chain, trail);
      assert Written(s, lead, chain, trail, f);
    }
    forall lead, chain, trail | Written(s, lead, chain, trail, f)
      ensures ParseFilter(s) == HasFilter(f)
    {
      FilterMisreading.ParsesIff(lead, chain, trail);
    }
  }

  /** Only white space gives the empty filter; all other texts that are no expressions are refused. */
  lemma EmptyIff(s: string)
    ensures ParseFilter(s) == NoFilter <==> IsBlank(s)
  {
    hide ParseChain;
    var gap := TrimSplits(s);
    if IsBlank(s) {
      assert s + "" == s;
      TrimGap(s, "");
    }
    assert gap + "" == gap;
  }
}
