/**
 What is extracted from the signatures of operators, conversions and destructors: every operator symbol of the language,
 call and subscript operators, literal operators and conversions, each with an optional template argument list, behind
 any return type and scope.
 */
module ScopeOperators {
  import opened Wrappers
  import opened ScopeNames
  import opened ScopeArguments
  import opened ScopeSignatures
  import opened TextAt

  // ---------------------------------------------------------------------------------------------
  // Signatures
  // ---------------------------------------------------------------------------------------------

  /** What stands behind the keyword; a conversion names a type, and `new` and `delete` look like one. */
  datatype Operator =
    | Symbol(text: string)
    | Call(inner: nat)
    | Subscript(inner: nat)
    | Literal(inner: nat, suffix: string)
    | Conversion(target: seq<Token>)

  /** What stands in front of the last part of a name. */
  datatype Front = Front(ret: seq<Token>, rooted: bool, scopes: seq<Component>)

  /** `gap` spaces follow the keyword, and `behind` are spaces and template arguments. */
  datatype OperatorSignature =
    OperatorSignature(front: Front, gap: nat, op: Operator, behind: seq<Token>, args: string, tail: string)

  /** The operator symbols of the language. */
  predicate IsSymbol(w: string)
  {
    || (|w| == 1 && w[0] in "<>-=|&+*/%^,~!")
    || (|w| == 2 && w[1] == '=' && w[0] in "<>-=|&+*/%^!")
    || (|w| == 2 && w[1] == w[0] && w[0] in "<>-|&+")
    || w == "->" || w == "->*" || w == "<<=" || w == ">>=" || w == "<=>"
  }

  predicate OperatorOk(op: Operator)
  {
    match op
    case Symbol(w) => IsSymbol(w)
    case Literal(_, suffix) => suffix != "" && forall i :: 0 <= i < |suffix| ==> IsName(suffix[i])
    case Conversion(target) => TokensOk(target) && target != [] && (target[0].Word? || target[0].Colons?) && !HasOperator(target)
    case _ => true
  }

  predicate FrontIsOk(f: Front)
  {
    ReturnOk(f.ret) && forall i :: 0 <= i < |f.scopes| ==> ComponentOk(f.scopes[i])
  }

  /** A type is set off from the keyword, and template arguments are set off from a bracket that would join with theirs. */
  predicate OperatorSignatureOk(g: OperatorSignature)
  {
    && FrontIsOk(g.front) && OperatorOk(g.op) && (g.op.Conversion? ==> g.gap > 0)
    && (forall i :: 0 <= i < |g.behind| ==> TokenOk(g.behind[i]) && (g.behind[i].Blank? || g.behind[i].Angles?))
    && (g.op == Symbol("<") && g.behind != [] ==> g.behind[0].Blank?)
    && PlainArguments(g.args) && PlainTail(g.args, g.tail)
  }

  function Spaces(n: nat): (s: string)
    ensures |s| == n
  {
    seq(n, _ => ' ')
  }

  function OperatorText(op: Operator): (s: string)
  {
    match op
    case Symbol(w) => w
    case Call(inner) => "(" + (Spaces(inner) + ")")
    case Subscript(inner) => "[" + (Spaces(inner) + "]")
    case Literal(inner, suffix) => "\"\"" + (Spaces(inner) + suffix)
    case Conversion(target) => TokensText(target)
  }

  function ScopeTokens(scopes: seq<Component>): (ts: seq<Token>)
  {
    if scopes == [] then [] else NameTokens(scopes) + [Colons]
  }

  function FrontOf(f: Front): (ts: seq<Token>)
  {
    f.ret + (RootTokens(f.rooted) + ScopeTokens(f.scopes))
  }

  /** The last part of the name, and the whole signature. */
  function OperatorNameText(g: OperatorSignature): (s: string)
  {
    OPERATOR + (Spaces(g.gap) + (OperatorText(g.op) + TokensText(g.behind)))
  }

  function OperatorSignatureText(g: OperatorSignature): (s: string)
  {
    TokensText(FrontOf(g.front)) + (OperatorNameText(g) + ("(" + (g.args + (")" + g.tail))))
  }

  // ---------------------------------------------------------------------------------------------
  // Where the operator token ends
  // ---------------------------------------------------------------------------------------------

  lemma {:induction false} SpacesSkip(s: string, p: nat, n: nat)
    requires At(s, p, Spaces(n)) && p + n < |s| && s[p + n] != ' '
    ensures SkipSpaces(s, p, |s|) == p + n
    decreases n
  {
    if n > 0 {
      assert Spaces(n) == [' '] + Spaces(n - 1);
      AtSplits(s, p, [' '], Spaces(n - 1));
      AtIndex(s, p, [' '], 0);
      SpacesSkip(s, p + 1, n - 1);
    }
  }

  lemma {:induction false} NamesSkip(s: string, p: nat, q: nat)
    requires p <= q < |s| && (forall i :: p <= i < q ==> IsName(s[i])) && !IsName(s[q])
    ensures SkipNames(s, p, |s|) == q
    decreases q - p
  {
    if p < q {
      NamesSkip(s, p + 1, q);
    }
  }

  /** The part of a symbol that is not taken for the token. */
  function Remainder(op: Operator): (ts: seq<Token>)
  {
    match op
    case Symbol(w) => if w == "!=" then [Mark('=')] else if w == "<=>" then [Mark('>')] else []
    case Conversion(target) => target
    case _ => []
  }

  /** The characters of a symbol, one by one. */
  lemma SymbolAt(s: string, p: nat, w: string)
    requires At(s, p, w) && 1 <= |w| <= 3
    ensures s[p] == w[0] && (|w| > 1 ==> s[p + 1] == w[1]) && (|w| > 2 ==> s[p + 2] == w[2])
  {
    forall i | 0 <= i < |w|
      ensures s[p + i] == w[i]
    {
      AtIndex(s, p, w, i);
    }
  }

  lemma OneCharacterEnds(s: string, p: nat, w: string)
    requires IsSymbol(w) && |w| == 1 && p + 1 < |s| && s[p] == w[0]
    requires var c := s[p + 1]; c == ' ' || c == '(' || (c == '<' && w != "<")
    ensures TokenEnd(s, p, |s|) == Some(p + 1)
  {
    hide SkipSpaces, SkipNames;
    assert w == [w[0]];
    assert w[0] in "<>-=|&+*/%^,~!";
  }

  lemma TwoCharactersEnd(s: string, p: nat, w: string)
    requires IsSymbol(w) && |w| == 2 && p + 2 < |s| && s[p] == w[0] && s[p + 1] == w[1] && s[p + 2] != '=' && s[p + 2] != '*'
    ensures TokenEnd(s, p, |s|) == Some(if w == "!=" then p + 1 else p + 2)
  {
    hide SkipSpaces, SkipNames;
    assert w == [w[0], w[1]];
  }

  lemma ThreeCharactersEnd(s: string, p: nat, w: string)
    requires IsSymbol(w) && |w| == 3 && p + 3 < |s| && s[p] == w[0] && s[p + 1] == w[1] && s[p + 2] == w[2]
    ensures TokenEnd(s, p, |s|) == Some(if w == "<=>" then p + 2 else p + 3)
  {
    hide SkipSpaces, SkipNames;
  }

  /** A symbol ends where it should, except for the two whose last character is left over. */
  lemma SymbolEnds(s: string, p: nat, w: string)
    requires IsSymbol(w) && At(s, p, w) && p + |w| < |s|
    requires var c := s[p + |w|]; c == ' ' || c == '(' || (c == '<' && w != "<")
    ensures TokenEnd(s, p, |s|) == Some(p + |w| - |Remainder(Symbol(w))|)
  {
    hide TokenEnd, At;
    SymbolAt(s, p, w);
    if |w| == 1 {
      OneCharacterEnds(s, p, w);
    } else if |w| == 2 {
      TwoCharactersEnd(s, p, w);
    } else {
      ThreeCharactersEnd(s, p, w);
    }
  }

  /** Spaces in brackets, for calls and subscripts. */
  lemma PairEnds(s: string, p: nat, open: char, inner: nat, close: char)
    requires At(s, p, [open] + (Spaces(inner) + [close])) && ((open == '(' && close == ')') || (open == '[' && close == ']'))
    ensures s[p] == open && TokenEnd(s, p, |s|) == Some(p + inner + 2)
  {
    hide At, SkipNames;
    AtSplits(s, p, [open], Spaces(inner) + [close]);
    AtSplits(s, p + 1, Spaces(inner), [close]);
    AtIndex(s, p, [open], 0);
    AtIndex(s, p + 1 + inner, [close], 0);
    SpacesSkip(s, p + 1, inner);
    hide SkipSpaces;
  }

  lemma LiteralEnds(s: string, p: nat, inner: nat, suffix: string)
    requires OperatorOk(Literal(inner, suffix)) && At(s, p, "\"\"" + (Spaces(inner) + suffix))
    requires p + 2 + inner + |suffix| < |s| && !IsName(s[p + 2 + inner + |suffix|])
    ensures s[p] == '"' && TokenEnd(s, p, |s|) == Some(p + 2 + inner + |suffix|)
  {
    hide At;
    AtSplits(s, p, "\"\"", Spaces(inner) + suffix);
    AtSplits(s, p + 2, Spaces(inner), suffix);
    AtIndex(s, p, "\"\"", 0);
    AtIndex(s, p, "\"\"", 1);
    var k := p + 2 + inner;
    forall i | k <= i < k + |suffix|
      ensures IsName(s[i])
    {
      AtIndex(s, k, suffix, i - k);
    }
    assert s[k] != ' ';
    SpacesSkip(s, p + 2, inner);
    NamesSkip(s, k, k + |suffix|);
    hide SkipSpaces, SkipNames, Spaces;
  }

  /** The first character of a type. */
  lemma TargetBegins(target: seq<Token>)
    requires OperatorOk(Conversion(target))
    ensures var w := TokensText(target); w != "" && (IsName(w[0]) || w[0] == ':')
  {
    hide HasOperator;
    assert TokenOk(target[0]);
    assert TokensText(target) == TokenText(target[0]) + TokensText(target[1..]);
  }

  lemma ConversionEnds(s: string, p: nat, target: seq<Token>)
    requires OperatorOk(Conversion(target)) && At(s, p, TokensText(target))
    ensures p < |s| && s[p] != ' ' && TokenEnd(s, p, |s|) == Some(p)
  {
    hide TokensText, SkipSpaces, SkipNames;
    TargetBegins(target);
    hide OperatorOk;
    AtIndex(s, p, TokensText(target), 0);
  }

  lemma RemainderText(w: string)
    requires IsSymbol(w)
    ensures var r := Remainder(Symbol(w));
      |TokensText(r)| == |r| <= |w| && w[|w| - |r|..] == TokensText(r)
  {
    var o := Opening(0, NotStarted, None, None);
    OneToken(o, Mark('='));
    OneToken(o, Mark('>'));
  }

  /** Where the token of an operator ends, and that what is left of the operator can be scanned as tokens. */
  lemma OperatorEnds(s: string, p: nat, op: Operator)
    requires OperatorOk(op) && At(s, p, OperatorText(op)) && p + |OperatorText(op)| < |s|
    requires var c := s[p + |OperatorText(op)|]; c == ' ' || c == '(' || (c == '<' && op != Symbol("<"))
    ensures p < |s| && s[p] != ' '
    ensures var q := p + |OperatorText(op)| - |TokensText(Remainder(op))|;
      q >= p && TokenEnd(s, p, |s|) == Some(q) && At(s, q, TokensText(Remainder(op)))
  {
    hide TokenEnd, TokensText, IsSymbol, Spaces;
    match op
    case Symbol(w) =>
      SymbolEnds(s, p, w);
      RemainderText(w);
      var r := TokensText(Remainder(op));
      assert w == w[..|w| - |r|] + r;
      AtSplits(s, p, w[..|w| - |r|], r);
      SymbolBegins(s, p, w);
    case Call(inner) =>
      PairEnds(s, p, '(', inner, ')');
      NoTokens();
    case Subscript(inner) =>
      PairEnds(s, p, '[', inner, ']');
      NoTokens();
    case Literal(inner, suffix) =>
      LiteralEnds(s, p, inner, suffix);
      NoTokens();
    case Conversion(target) =>
      ConversionEnds(s, p, target);
  }

  lemma SymbolBegins(s: string, p: nat, w: string)
    requires IsSymbol(w) && At(s, p, w)
    ensures p < |s| && s[p] != ' '
  {
    SymbolAt(s, p, w);
  }

  lemma NoTokens()
    ensures TokensText([]) == ""
  {
  }

  // ---------------------------------------------------------------------------------------------
  // What stands in front
  // ---------------------------------------------------------------------------------------------

  lemma ScopesOk(scopes: seq<Component>)
    requires forall i :: 0 <= i < |scopes| ==> ComponentOk(scopes[i])
    ensures var ts := ScopeTokens(scopes);
      TokensOk(ts) && (ts != [] ==> ts[0].Word? && ts[|ts| - 1].Colons?)
  {
    hide ComponentOk;
    if scopes != [] {
      NameTokensOk(scopes);
      RootOk(true);
      TokensOkAppend(NameTokens(scopes), [Colons]);
    }
  }

  lemma FrontTokensOk(f: Front)
    requires FrontIsOk(f)
    ensures var ts := FrontOf(f);
      && TokensOk(ts) && (ts != [] ==> !ts[|ts| - 1].Word?)
      && (FirstSolid(ts).Some? ==> !FirstSolid(ts).value.Angles?)
  {
    hide TokensOk, ComponentOk, ScopeTokens, LastSolid;
    ScopesOk(f.scopes);
    RootOk(f.rooted);
    TokensOkAppend(RootTokens(f.rooted), ScopeTokens(f.scopes));
    var rest := RootTokens(f.rooted) + ScopeTokens(f.scopes);
    assert rest != [] ==> (rest[0].Word? || rest[0].Colons?) && rest[|rest| - 1].Colons?;
    TokensOkAppend(f.ret, rest);
    FirstSolidAppend(f.ret, rest);
  }

  /** The scan behind the scopes of a name. */
  lemma ScopesAfter(o: Opening, scopes: seq<Component>)
    requires (forall i :: 0 <= i < |scopes| ==> ComponentOk(scopes[i])) && Behind(o) && !o.state.Started?
    ensures var r := AfterTokens(o, ScopeTokens(scopes));
      && r.p == o.p + |TokensText(ScopeTokens(scopes))| && Behind(r) && !r.state.Started?
      && (r.state.OperatorDetected? <==> o.state.OperatorDetected? || HasOperator(ScopeTokens(scopes)))
      && (scopes == [] ==> r == o)
      && (scopes != [] ==>
            !r.state.NotStarted? && !r.state.Ended? && r.first == if o.state.NotStarted? || o.state.Ended? then Some(o.p) else o.first)
  {
    hide AfterTokens, TokensText, HasOperator, NameTokens, ComponentOk, BeginsWithOperator;
    ScopesOk(scopes);
    TokensLength(o, ScopeTokens(scopes));
    TokensBehind(o, ScopeTokens(scopes));
    if scopes == [] {
      NoTokensAfter(o);
    } else {
      NameAfter(o, scopes);
      var r := AfterTokens(o, NameTokens(scopes));
      TokensAppend(o, NameTokens(scopes), [Colons]);
      OneToken(r, Colons);
    }
  }

  lemma NoTokensAfter(o: Opening)
    ensures AfterTokens(o, []) == o
  {
  }

  /** Whether a name that goes on at the scan position is found to begin behind the return type. */
  ghost predicate BeginsAt(o: Opening, a: nat)
  {
    (if o.state.NotStarted? || o.state.Ended? then Some(o.p) else o.first) == Some(a)
  }

  lemma FrontScanned(f: Front)
    requires FrontIsOk(f)
    ensures var r, a := AfterTokens(Opening(0, NotStarted, None, None), FrontOf(f)), |TokensText(f.ret)|;
      && r.p == |TokensText(FrontOf(f))| && !r.state.Started? && Behind(r)
      && (BeginsAt(r, a) <==> !HasOperator(f.ret) && (f.rooted ==> LastSolid(f.ret).None?))
      && (r.state.OperatorDetected? <==> HasOperator(f.ret) || HasOperator(ScopeTokens(f.scopes)))
  {
    hide AfterTokens, TokensText, HasOperator, ScopeTokens, ComponentOk, TokenOk, FirstSolid, LastSolid, BeginsWithOperator;
    var start, root := Opening(0, NotStarted, None, None), RootTokens(f.rooted);
    var m := AfterTokens(start, f.ret);
    TokensAppend(start, f.ret, root + ScopeTokens(f.scopes));
    TokensAppend(m, root, ScopeTokens(f.scopes));
    TokensBehind(start, f.ret);
    ReturnEnds(start, f.ret);
    TokensLength(start, f.ret);
    RootAfter(m, f.rooted);
    ScopesAfter(AfterTokens(m, root), f.scopes);
  }

  /** The front is scanned as specified, up to a place where a word may begin. */
  lemma FrontScans(s: string, f: Front)
    requires FrontIsOk(f) && At(s, 0, TokensText(FrontOf(f))) && |TokensText(FrontOf(f))| < |s|
    ensures var start := Opening(0, NotStarted, None, None);
      var r := AfterTokens(start, FrontOf(f));
      && r.p == |TokensText(FrontOf(f))| && WordMayBegin(s, r)
      && FindOpening(s, 0, |s|, start) == FindOpening(s, 0, |s|, r)
  {
    hide FindOpening, TokensText, AfterTokens, TokensOk, At, FrontOf, FirstSolid, FrontIsOk;
    var start := Opening(0, NotStarted, None, None);
    FrontTokensOk(f);
    TokensScan(s, start, FrontOf(f));
    if FrontOf(f) == [] {
      NoTokensAfter(start);
    }
  }

  // ---------------------------------------------------------------------------------------------
  // Operators
  // ---------------------------------------------------------------------------------------------

  /** Once an operator was detected tokens that name no other one are passed over. */
  lemma {:induction false} PassedOver(o: Opening, ts: seq<Token>)
    requires o.state.OperatorDetected? && !HasOperator(ts)
    ensures AfterTokens(o, ts) == o.(p := o.p + |TokensText(ts)|)
    decreases |ts|
  {
    hide BeginsWithOperator;
    if ts != [] {
      PassedOver(AfterToken(o, ts[0]), ts[1..]);
    }
  }

  lemma {:induction false} NoWordsNoOperator(ts: seq<Token>)
    requires forall i :: 0 <= i < |ts| ==> !ts[i].Word?
    ensures !HasOperator(ts)
    decreases |ts|
  {
    if ts != [] {
      NoWordsNoOperator(ts[1..]);
    }
  }

  lemma DetectsOperator(s: string, k: nat, gap: nat, op: Operator)
    requires OperatorOk(op) && At(s, k, OPERATOR) && At(s, k + 8, Spaces(gap)) && At(s, k + 8 + gap, OperatorText(op))
    requires (k > 0 ==> !IsName(s[k - 1])) && k + 8 + gap + |OperatorText(op)| < |s|
    requires var c := s[k + 8 + gap + |OperatorText(op)|]; c == ' ' || c == '(' || (c == '<' && op != Symbol("<"))
    ensures var q := k + 8 + gap + |OperatorText(op)| - |TokensText(Remainder(op))|;
      q >= k + 8 + gap && DetectOperator(s, 0, |s|, k) == Some(q) && At(s, q, TokensText(Remainder(op)))
  {
    hide TokenEnd, TokensText, OperatorText, OperatorOk;
    OperatorEnds(s, k + 8 + gap, op);
    SpacesSkip(s, k + 8, gap);
  }

  /** What may follow an operator token. */
  lemma BehindBegins(s: string, p: nat, g: OperatorSignature)
    requires OperatorSignatureOk(g) && At(s, p, TokensText(g.behind) + "(")
    ensures p < |s| && (s[p] == ' ' || s[p] == '(' || (s[p] == '<' && g.op != Symbol("<")))
  {
    hide FrontIsOk, OperatorOk, PlainArguments, PlainTail;
    var w := TokensText(g.behind) + "(";
    AtIndex(s, p, w, 0);
    if g.behind != [] {
      assert TokenOk(g.behind[0]);
      assert w[0] == TokenText(g.behind[0])[0];
    }
  }

  lemma RemainderOk(g: OperatorSignature)
    requires OperatorSignatureOk(g)
    ensures var ts := Remainder(g.op) + g.behind;
      TokensOk(ts) && !HasOperator(ts) && (ts != [] && ts[0].Word? ==> g.op.Conversion?)
    ensures TokensText(Remainder(g.op) + g.behind) == TokensText(Remainder(g.op)) + TokensText(g.behind)
  {
    hide FrontIsOk, PlainArguments, PlainTail, HasOperator, TokensText, IsSymbol;
    var r := Remainder(g.op);
    assert TokensOk(g.behind) && TokensOk(r);
    NoWordsNoOperator(g.behind);
    if !g.op.Conversion? {
      NoWordsNoOperator(r);
    }
    TokensOkAppend(r, g.behind);
    TokensAppend(Opening(0, NotStarted, None, None), r, g.behind);
  }

  /** Where the parts of an operator name are. */
  lemma NameParts(s: string, k: nat, g: OperatorSignature)
    requires At(s, k, OperatorNameText(g) + "(")
    ensures At(s, k, OPERATOR) && At(s, k + 8, Spaces(g.gap)) && At(s, k + 8 + g.gap, OperatorText(g.op))
    ensures At(s, k + 8 + g.gap + |OperatorText(g.op)|, TokensText(g.behind) + "(")
  {
    hide TokensText, OperatorText, Spaces, At;
    var rest := OperatorText(g.op) + (TokensText(g.behind) + "(");
    assert OperatorNameText(g) + "(" == OPERATOR + (Spaces(g.gap) + rest);
    AtSplits(s, k, OPERATOR, Spaces(g.gap) + rest);
    AtSplits(s, k + 8, Spaces(g.gap), rest);
    AtSplits(s, k + 8 + g.gap, OperatorText(g.op), TokensText(g.behind) + "(");
  }

  /** Where the parts of a signature are. */
  lemma OperatorParts(g: OperatorSignature)
    ensures var s, k := OperatorSignatureText(g), |TokensText(FrontOf(g.front))|;
      var z := k + |OperatorNameText(g)|;
      && At(s, 0, TokensText(FrontOf(g.front))) && At(s, k, OperatorNameText(g) + "(") && z < |s| && s[z] == '('
      && At(s, z + 1, g.args + ")") && s[z + 2 + |g.args|..] == g.tail
  {
    hide TokensText, FrontOf, OperatorNameText;
    var s, k := OperatorSignatureText(g), |TokensText(FrontOf(g.front))|;
    var z := k + |OperatorNameText(g)|;
    assert s[k..z + 1] == OperatorNameText(g) + "(";
    assert s[z + 1..z + 2 + |g.args|] == g.args + ")";
  }

  /** The scan behind the operator token. */
  function Detected(o: Opening, q: nat): (r: Opening)
  {
    Opening(q, OperatorDetected, if o.state.NotStarted? || o.state.Ended? then Some(o.p) else o.first, Some(o.p))
  }

  lemma KeywordScans(s: string, o: Opening, q: nat)
    requires o.p < |s| && s[o.p] == 'o' && DetectOperator(s, 0, |s|, o.p) == Some(q)
    ensures FindOpening(s, 0, |s|, o) == FindOpening(s, 0, |s|, Detected(o, q))
  {
    hide FindOpening, DetectOperator, SkipTemplate;
    ScansOneRound(s, o);
  }

  /** Behind the token the scan goes on to the opening parenthesis. */
  lemma RestScans(s: string, o: Opening, ts: seq<Token>)
    requires o.state.OperatorDetected? && TokensOk(ts) && !HasOperator(ts) && At(s, o.p, TokensText(ts))
    requires o.p + |TokensText(ts)| < |s| && s[o.p + |TokensText(ts)|] == '('
    requires ts != [] && ts[0].Word? ==> WordMayBegin(s, o)
    ensures FindOpening(s, 0, |s|, o) == o.(p := o.p + |TokensText(ts)|)
  {
    hide FindOpening, TokensText, TokensOk, AfterTokens, HasOperator, At;
    TokensScan(s, o, ts);
    PassedOver(o, ts);
    StopsAtParenthesis(s, 0, |s|, AfterTokens(o, ts));
  }

  /** The operator is detected, and what is left of the name can be scanned as tokens. */
  lemma TokenAndRest(s: string, k: nat, g: OperatorSignature)
    requires OperatorSignatureOk(g) && At(s, k, OperatorNameText(g) + "(") && (k > 0 ==> !IsName(s[k - 1]))
    ensures s[k] == 'o'
    ensures var ts := Remainder(g.op) + g.behind;
      var z := k + |OperatorNameText(g)|;
      var q := z - |TokensText(ts)|;
      && k < q && DetectOperator(s, 0, |s|, k) == Some(q) && At(s, q, TokensText(ts)) && z < |s| && s[z] == '('
      && (ts != [] && ts[0].Word? ==> s[q - 1] == ' ')
  {
    hide TokensText, OperatorText, OperatorOk, FrontIsOk, TokenOk, Remainder, PlainArguments, PlainTail, HasOperator, TokensOk,
      DetectOperator, At, Spaces, IsName;
    var p := k + 8 + g.gap + |OperatorText(g.op)|;
    NameParts(s, k, g);
    BehindBegins(s, p, g);
    DetectsOperator(s, k, g.gap, g.op);
    RemainderOk(g);
    if g.op.Conversion? {
      SetOff(s, k + 8, g);
    }
    hide OperatorSignatureOk;
    AtIndex(s, k, OPERATOR, 0);
    AtJoins(s, p - |TokensText(Remainder(g.op))|, TokensText(Remainder(g.op)), TokensText(g.behind), "(");
  }

  /** From the keyword on, the scan finds the opening parenthesis of the arguments, and the name begins at the keyword. */
  lemma OperatorScans(s: string, g: OperatorSignature, o: Opening)
    requires OperatorSignatureOk(g) && At(s, o.p, OperatorNameText(g) + "(") && WordMayBegin(s, o)
    ensures FindOpening(s, 0, |s|, o) == Detected(o, o.p + |OperatorNameText(g)|)
  {
    hide FindOpening, TokensText, OperatorNameText, Remainder, HasOperator, TokensOk, DetectOperator;
    TokenAndRest(s, o.p, g);
    RemainderOk(g);
    hide OperatorSignatureOk, At;
    var ts := Remainder(g.op) + g.behind;
    var q := o.p + |OperatorNameText(g)| - |TokensText(ts)|;
    KeywordScans(s, o, q);
    RestScans(s, Detected(o, q), ts);
  }

  /** A conversion is scanned from its type on, which follows a space. */
  lemma SetOff(s: string, p: nat, g: OperatorSignature)
    requires OperatorSignatureOk(g) && g.op.Conversion? && At(s, p, Spaces(g.gap))
    ensures g.gap > 0 && OperatorText(g.op) == TokensText(Remainder(g.op)) && s[p + g.gap - 1] == ' '
  {
    AtIndex(s, p, Spaces(g.gap), g.gap - 1);
  }

  lemma AtJoins(s: string, p: nat, a: string, b: string, c: string)
    requires At(s, p, a) && At(s, p + |a|, b + c) && c != ""
    ensures At(s, p, a + b) && p + |a + b| < |s| && s[p + |a + b|] == c[0]
  {
    AtSplits(s, p + |a|, b, c);
    AtIndex(s, p + |a| + |b|, c, 0);
    assert s[p..p + |a + b|] == s[p..p + |a|] + s[p + |a|..p + |a| + |b|];
  }

  /**
   The name of an operator begins at the keyword and ends at the arguments, whatever the operator is and whatever stands in
   front of it. With scope it begins behind the return type, exactly when no word of the return type begins with
   "operator" and the name, if it begins with "::", has nothing in front of it.
   */
  lemma OperatorName(g: OperatorSignature)
    requires OperatorSignatureOk(g)
    ensures var s, a, k := OperatorSignatureText(g), |TokensText(g.front.ret)|, |TokensText(FrontOf(g.front))|;
      var z := k + |OperatorNameText(g)|;
      && ParseName(s, 0, |s|, false) == Some((k, z))
      && (ParseName(s, 0, |s|, true) == Some((a, z)) <==> !HasOperator(g.front.ret) && (g.front.rooted ==> LastSolid(g.front.ret).None?))
  {
    hide TokensText, FrontOf, OperatorSignatureText, OperatorNameText, OperatorText, FindOpening, FindClosing, HasOperator, FrontIsOk,
      OperatorOk, PlainArguments, PlainTail, IsReturnType, AfterTokens, LastSolid, WordMayBegin, TokenOk;
    var s, k, start := OperatorSignatureText(g), |TokensText(FrontOf(g.front))|, Opening(0, NotStarted, None, None);
    var z := k + |OperatorNameText(g)|;
    OperatorParts(g);
    FrontScans(s, g.front);
    FrontScanned(g.front);
    OperatorScans(s, g, AfterTokens(start, FrontOf(g.front)));
    ArgumentsScan(s, z + 1, g.args, g.tail);
  }

  // ---------------------------------------------------------------------------------------------
  // Destructors
  // ---------------------------------------------------------------------------------------------

  datatype DestructorSignature = DestructorSignature(front: Front, className: string, args: string, tail: string)

  predicate DestructorOk(g: DestructorSignature)
  {
    FrontIsOk(g.front) && IsIdentifier(g.className) && PlainArguments(g.args) && PlainTail(g.args, g.tail)
  }

  function DestructorText(g: DestructorSignature): (s: string)
  {
    TokensText(FrontOf(g.front)) + ("~" + (g.className + ("(" + (g.args + (")" + g.tail)))))
  }

  lemma DestructorParts(g: DestructorSignature)
    ensures var s, k := DestructorText(g), |TokensText(FrontOf(g.front))|;
      var z := k + 1 + |g.className|;
      && At(s, 0, TokensText(FrontOf(g.front))) && k < z < |s| && s[k] == '~' && At(s, k + 1, g.className) && s[z] == '('
      && At(s, z + 1, g.args + ")") && s[z + 2 + |g.args|..] == g.tail
  {
    hide TokensText, FrontOf;
    var s, k := DestructorText(g), |TokensText(FrontOf(g.front))|;
    var z := k + 1 + |g.className|;
    assert s[k + 1..z] == g.className;
    assert s[z + 1..z + 2 + |g.args|] == g.args + ")";
  }

  lemma TildeScans(s: string, o: Opening)
    requires o.p < |s| && s[o.p] == '~'
    ensures FindOpening(s, 0, |s|, o) == FindOpening(s, 0, |s|, NameChar(o))
  {
    hide FindOpening, DetectOperator, SkipTemplate;
    ScansOneRound(s, o);
  }

  /** The name of the class behind the tilde: the scan goes on to its end, and takes it for an operator if it begins like one. */
  lemma ClassScans(s: string, o: Opening, w: string)
    requires IsIdentifier(w) && (o.state.Started? || o.state.OperatorDetected?) && At(s, o.p, w) && o.p > 0 && s[o.p - 1] == '~'
    requires o.p + |w| < |s| && !IsName(s[o.p + |w|])
    ensures FindOpening(s, 0, |s|, o) ==
      FindOpening(s, 0, |s|, if BeginsWithOperator(w) then AfterWord(o, w) else o.(p := o.p + |w|))
  {
    hide FindOpening, KeywordAt, TokenEnd, SkipSpaces;
    KeywordAtWord(s, o.p, |s|, w);
    forall i | o.p <= i < o.p + |w|
      ensures IsName(s[i])
    {
      AtIndex(s, o.p, w, i - o.p);
    }
    if BeginsWithOperator(w) {
      OperatorWordScans(s, 0, |s|, o, w);
      RestOfWord(s, 0, |s|, AfterWord(o, w).(p := o.p + 8), o.p + |w|);
    } else {
      StepNameChar(s, 0, |s|, o);
      RestOfWord(s, 0, |s|, o.(p := o.p + 1), o.p + |w|);
    }
  }

  /** The scan of a destructor name. */
  lemma DestructorScans(s: string, o: Opening, w: string)
    requires IsIdentifier(w) && o.p < |s| && WordMayBegin(s, o) && s[o.p] == '~' && At(s, o.p + 1, w) && Behind(o)
    requires o.p + 1 + |w| < |s| && s[o.p + 1 + |w|] == '('
    ensures var r := FindOpening(s, 0, |s|, o);
      && r.p == o.p + 1 + |w|
      && r.first == (if o.state.NotStarted? || o.state.Ended? then Some(o.p) else o.first)
      && (r.last == Some(o.p) <==> !BeginsWithOperator(w) && !o.state.OperatorDetected?)
  {
    hide FindOpening, BeginsWithOperator, IsIdentifier, At;
    TildeScans(s, o);
    var o1 := NameChar(o);
    ClassScans(s, o1, w);
    StopsAtParenthesis(s, 0, |s|, if BeginsWithOperator(w) then AfterWord(o1, w) else o1.(p := o1.p + |w|));
  }

  /**
   The name of a destructor: with scope it is found exactly as the name of an operator is, and without scope exactly when
   neither the class nor any word in front of it begins with "operator".
   */
  lemma DestructorName(g: DestructorSignature)
    requires DestructorOk(g)
    ensures var s, a, k := DestructorText(g), |TokensText(g.front.ret)|, |TokensText(FrontOf(g.front))|;
      var z := k + 1 + |g.className|;
      && (ParseName(s, 0, |s|, false) == Some((k, z))
          <==> !BeginsWithOperator(g.className) && !HasOperator(g.front.ret) && !HasOperator(ScopeTokens(g.front.scopes)))
      && (ParseName(s, 0, |s|, true) == Some((a, z)) <==> !HasOperator(g.front.ret) && (g.front.rooted ==> LastSolid(g.front.ret).None?))
  {
    hide TokensText, FrontOf, DestructorText, FindOpening, FindClosing, HasOperator, FrontIsOk, PlainArguments, PlainTail, IsReturnType,
      AfterTokens, LastSolid, WordMayBegin, BeginsWithOperator, IsIdentifier, ScopeTokens;
    var s, k, start := DestructorText(g), |TokensText(FrontOf(g.front))|, Opening(0, NotStarted, None, None);
    var z := k + 1 + |g.className|;
    DestructorParts(g);
    FrontScans(s, g.front);
    FrontScanned(g.front);
    DestructorScans(s, AfterTokens(start, FrontOf(g.front)), g.className);
    ArgumentsScan(s, z + 1, g.args, g.tail);
  }
}
