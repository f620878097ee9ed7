/**
 Filter expressions as they are written, their meaning, and the theorem that parsing what is written gives the filter
 that is meant. Operators have equal precedence and associate to the left; parentheses group.
 */
module FilterGrammar {
  import opened Wrappers
  import opened FilterText

  // ---------------------------------------------------------------------------------------------
  // Expressions
  // ---------------------------------------------------------------------------------------------

  // White space is part of what is written: every place where the language allows it has text of its own.

  datatype Sign = Bang(gap: string) | NotWord(gap: string)

  datatype OperandText = Word(text: string) | Quoted(text: string)

  /** What stands between the percent signs. */
  datatype Placeholder = Placeholder(lead: string, name: string, trail: string)

  datatype Test = Test(lead: string, relation: Relation, gap: string, operand: OperandText)

  datatype Sub =
    | Attribute(signs: seq<Sign>, placeholder: Placeholder, test: Option<Test>)
    | Paren(signs: seq<Sign>, open: string, chain: Chain, close: string)

  datatype Chain = One(sub: Sub) | More(chain: Chain, before: string, op: Operator, spelled: bool, after: string, sub: Sub)

  predicate IsWord(s: string)
  {
    s != "" && forall i :: 0 <= i < |s| ==> IsWordChar(s[i])
  }

  predicate IsBlank(s: string)
  {
    forall i :: 0 <= i < |s| ==> IsSpace(s[i])
  }

  predicate IsGap(s: string)
  {
    s != "" && IsBlank(s)
  }

  predicate OperandOk(operand: OperandText)
  {
    match operand
    case Word(s) =>
      && s != "" && s[0] != '"' && !IsSpace(s[0])
      && forall i :: 1 <= i < |s| ==> IsOperandChar(s[i])
    case Quoted(s) => QuotedRun(s + "\"") == Some(|s|)
  }

  /** A word needs white space behind it unless something else sets it off. */
  predicate SignOk(sign: Sign)
  {
    IsBlank(sign.gap) && (sign.NotWord? ==> sign.gap != "")
  }

  predicate SignsOk(signs: seq<Sign>)
  {
    forall i :: 0 <= i < |signs| ==> SignOk(signs[i])
  }

  predicate TestOk(test: Test)
  {
    && IsBlank(test.lead) && IsBlank(test.gap) && OperandOk(test.operand)
    && (test.relation.Custom? ==> IsWord(test.relation.word))
    && (test.gap == "" ==> test.relation.Custom? && !IsWordChar(OperandSpelling(test.operand)[0]))
  }

  predicate PlaceholderOk(p: Placeholder)
  {
    IsBlank(p.lead) && IsWord(p.name) && IsBlank(p.trail)
  }

  /** An attribute that is only tested for presence and carries no negation sign. */
  predicate IsBare(sub: Sub)
  {
    sub.Attribute? && sub.signs == [] && sub.test.None?
  }

  predicate EndsInWord(sub: Sub)
  {
    sub.Attribute? && sub.test.Some? && sub.test.value.operand.Word?
  }

  /** What can be written: a relation cannot be negated without parentheses. */
  predicate SubForm(sub: Sub)
    decreases sub
  {
    && SignsOk(sub.signs)
    && match sub
       case Attribute(signs, placeholder, test) => PlaceholderOk(placeholder) && (test.Some? ==> signs == [] && TestOk(test.value))
       case Paren(_, open, chain, close) => IsBlank(open) && ChainForm(chain) && IsBlank(close)
  }

  predicate ChainForm(chain: Chain)
    decreases chain
  {
    match chain
    case One(sub) => SubForm(sub)
    case More(front, before, _, spelled, after, sub) =>
      && ChainForm(front) && SubForm(sub) && IsBlank(before) && IsBlank(after)
      && (spelled ==> after != "") && (spelled && before == "" ==> !EndsInWord(front.sub))
  }

  /** No presence test is followed by a spelled-out operator, which would be read as the name of a relation. */
  predicate SubClear(sub: Sub)
    decreases sub
  {
    sub.Paren? ==> ChainClear(sub.chain)
  }

  predicate ChainClear(chain: Chain)
    decreases chain
  {
    match chain
    case One(sub) => SubClear(sub)
    case More(front, _, _, spelled, _, sub) => ChainClear(front) && SubClear(sub) && (spelled ==> !IsBare(front.sub))
  }

  // ---------------------------------------------------------------------------------------------
  // Spelling and meaning
  // ---------------------------------------------------------------------------------------------

  function RelationText(relation: Relation): (s: string)
  {
    match relation
    case Equal => "="
    case NotEqual => "!="
    case Greater => ">"
    case Less => "<"
    case GreaterOrEqual => ">="
    case LessOrEqual => "<="
    case Custom(word) => word
  }

  function OperandSpelling(operand: OperandText): (s: string)
  {
    match operand
    case Word(s) => s
    case Quoted(s) => "\"" + s + "\""
  }

  function OperatorText(op: Operator, spelled: bool): (s: string)
  {
    if op.And? then if spelled then "and" else "&" else if spelled then "or" else "|"
  }

  function SignsText(signs: seq<Sign>): (s: string)
  {
    if signs == [] then "" else (if signs[0].Bang? then "!" else "not") + (signs[0].gap + SignsText(signs[1..]))
  }

  function TestText(test: Test): (s: string)
  {
    RelationText(test.relation) + (test.gap + OperandSpelling(test.operand))
  }

  /** A placeholder behind its opening percent sign. */
  function PlaceholderText(p: Placeholder): (s: string)
  {
    p.lead + (p.name + (p.trail + "%"))
  }

  /** A subexpression without its negation signs. */
  function CoreText(sub: Sub): (s: string)
    decreases sub, 0
  {
    match sub
    case Attribute(_, placeholder, test) =>
      "%" + (PlaceholderText(placeholder) + if test.Some? then test.value.lead + TestText(test.value) else "")
    case Paren(_, open, chain, close) => "(" + (open + (ChainText(chain) + (close + ")")))
  }

  function SubText(sub: Sub): (s: string)
    decreases sub, 1
  {
    SignsText(sub.signs) + CoreText(sub)
  }

  function ChainText(chain: Chain): (s: string)
    decreases chain
  {
    match chain
    case One(sub) => SubText(sub)
    case More(front, before, op, spelled, after, sub) =>
      ChainText(front) + (before + (OperatorText(op, spelled) + (after + SubText(sub))))
  }

  predicate Odd(signs: seq<Sign>)
  {
    |signs| % 2 == 1
  }

  function Signed(f: Filter, signs: seq<Sign>): (r: Filter)
  {
    if Odd(signs) then Not(f) else f
  }

  /** The filter a subexpression stands for. */
  function SubFilter(sub: Sub): (f: Filter)
    decreases sub
  {
    match sub
    case Attribute(signs, Placeholder(_, name, _), test) =>
      Signed(if test.Some? then Compare(name, test.value.relation, test.value.operand.text) else Exists(name), signs)
    case Paren(signs, _, chain, _) => Signed(ChainFilter(chain), signs)
  }

  function ChainFilter(chain: Chain): (f: Filter)
    decreases chain
  {
    match chain
    case One(sub) => SubFilter(sub)
    case More(front, _, op, _, _, sub) => Binary(op, ChainFilter(front), SubFilter(sub))
  }

  /** A truth value under some negation signs, one at a time. */
  predicate Flipped(b: bool, signs: seq<Sign>)
  {
    if signs == [] then b else !Flipped(b, signs[1..])
  }

  /** Truth value of an expression as it is written: signs one by one, operators from left to right. */
  predicate SubTruth(sub: Sub, record: Filter -> bool)
    decreases sub
  {
    match sub
    case Attribute(signs, Placeholder(_, name, _), test) =>
      Flipped(record(if test.Some? then Compare(name, test.value.relation, test.value.operand.text) else Exists(name)), signs)
    case Paren(signs, _, chain, _) => Flipped(ChainTruth(chain, record), signs)
  }

  predicate ChainTruth(chain: Chain, record: Filter -> bool)
    decreases chain
  {
    match chain
    case One(sub) => SubTruth(sub, record)
    case More(front, _, op, _, _, sub) =>
      if op.And? then ChainTruth(front, record) && SubTruth(sub, record)
      else ChainTruth(front, record) || SubTruth(sub, record)
  }

  lemma {:induction false} FlippedIsParity(b: bool, signs: seq<Sign>)
    ensures Flipped(b, signs) == if Odd(signs) then !b else b
    decreases |signs|
  {
    if signs != [] {
      FlippedIsParity(b, signs[1..]);
    }
  }

  lemma {:induction false} SubFilterIsMeant(sub: Sub, record: Filter -> bool)
    ensures Eval(SubFilter(sub), record) == SubTruth(sub, record)
    decreases sub
  {
    match sub
    case Attribute(signs, Placeholder(_, name, _), test) =>
      FlippedIsParity(record(if test.Some? then Compare(name, test.value.relation, test.value.operand.text) else Exists(name)), signs);
    case Paren(signs, _, chain, _) =>
      ChainFilterIsMeant(chain, record);
      FlippedIsParity(ChainTruth(chain, record), signs);
  }

  lemma {:induction false} ChainFilterIsMeant(chain: Chain, record: Filter -> bool)
    ensures Eval(ChainFilter(chain), record) == ChainTruth(chain, record)
    decreases chain
  {
    match chain
    case One(sub) =>
      SubFilterIsMeant(sub, record);
    case More(front, _, op, _, _, sub) =>
      ChainFilterIsMeant(front, record);
      SubFilterIsMeant(sub, record);
  }

  // ---------------------------------------------------------------------------------------------
  // Scanning what was spelled
  // ---------------------------------------------------------------------------------------------

  /** Text that does not begin with white space. */
  predicate Solid(s: string)
  {
    s == "" || !IsSpace(s[0])
  }

  lemma {:induction false} TrimGap(gap: string, s: string)
    requires IsBlank(gap) && Solid(s)
    ensures Trim(gap + s) == s
    decreases |gap|
  {
    if gap == "" {
      assert gap + s == s;
    } else {
      TrimGap(gap[1..], s);
      assert (gap + s)[1..] == gap[1..] + s;
    }
  }

  lemma TrimSolid(s: string)
    requires Solid(s)
    ensures Trim(s) == s
  {
  }

  lemma {:induction false} WordRunIs(w: string, t: string)
    requires forall i :: 0 <= i < |w| ==> IsWordChar(w[i])
    requires t == "" || !IsWordChar(t[0])
    ensures WordRun(w + t) == |w|
    decreases |w|
  {
    if w == "" {
      assert w + t == t;
    } else {
      WordRunIs(w[1..], t);
      assert (w + t)[1..] == w[1..] + t;
    }
  }

  lemma {:induction false} OperandRunIs(w: string, t: string)
    requires forall i :: 0 <= i < |w| ==> IsOperandChar(w[i])
    requires t == "" || !IsOperandChar(t[0])
    ensures OperandRun(w + t) == |w|
    decreases |w|
  {
    if w == "" {
      assert w + t == t;
    } else {
      OperandRunIs(w[1..], t);
      assert (w + t)[1..] == w[1..] + t;
    }
  }

  lemma KeywordReads(word: string, gap: string, s: string)
    requires IsGap(gap)
    ensures Keyword(word + (gap + s), word)
    ensures (word + (gap + s))[|word|..] == gap + s
  {
  }

  lemma {:induction false} QuotedRunStops(a: string, t: string)
    requires QuotedRun(a + "\"") == Some(|a|)
    ensures QuotedRun(a + ("\"" + t)) == Some(|a|)
    decreases |a|
  {
    var s, u := a + "\"", a + ("\"" + t);
    if a == "" {
      assert u[0] == '"';
    } else if a[0] == '\\' {
      assert s[2..] == a[2..] + "\"" && u[2..] == a[2..] + ("\"" + t) by {
        assert |a| > 1;
      }
      QuotedRunStops(a[2..], t);
    } else {
      assert s[0] == a[0] && u[0] == a[0];
      assert s[1..] == a[1..] + "\"" && u[1..] == a[1..] + ("\"" + t);
      QuotedRunStops(a[1..], t);
    }
  }
}
