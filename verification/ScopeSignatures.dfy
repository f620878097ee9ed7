/**
 What is extracted from ordinary signatures: a return type of words, scopes, template arguments and marks such as `*` and
 `&`, a scoped function name, parenthesised arguments. The name is found exactly when no earlier identifier begins with
 "operator", which the scanner takes for the keyword, and a name that begins with "::" does not follow a return type, which
 the scanner takes for its scope.
 */
module ScopeSignatures {
  import opened Wrappers
  import opened ScopeNames
  import opened ScopeArguments
  import opened TextAt

  // ---------------------------------------------------------------------------------------------
  // Signatures
  // ---------------------------------------------------------------------------------------------

  /** What stands in front of the arguments. `Angles` are template arguments in their brackets. */
  datatype Token = Word(word: string) | Colons | Blank | Mark(c: char) | Angles(text: string)

  /** A part of a scoped name. */
  datatype Component = Component(word: string, angles: Option<string>)

  /** A signature; `rooted` says that the name begins with "::". */
  datatype Signature = Signature(ret: seq<Token>, rooted: bool, names: seq<Component>, args: string, tail: string)

  /** An identifier; `operator` itself is a keyword. */
  predicate IsIdentifier(w: string)
  {
    w != "" && w != OPERATOR && forall i :: 0 <= i < |w| ==> IsName(w[i])
  }

  predicate BeginsWithOperator(w: string)
  {
    |w| > 8 && w[..8] == OPERATOR
  }

  /** How many of `depth` angle brackets are open behind the text; none once all were closed. */
  function OpenBrackets(text: string, p: nat, depth: nat): (d: nat)
    requires p <= |text|
    decreases |text| - p
  {
    if depth == 0 || p == |text| then depth
    else OpenBrackets(text, p + 1, if text[p] == '>' then depth - 1 else if text[p] == '<' then depth + 1 else depth)
  }

  predicate AnglesOk(text: string)
  {
    OpenBrackets(text, 0, 1) == 1 && NoKeyword(text)
  }

  predicate TokenOk(t: Token)
  {
    match t
    case Word(w) => IsIdentifier(w)
    case Mark(c) => !IsName(c) && c != '~' && c != '(' && c != '<' && c != ':' && c != ' '
    case Angles(text) => AnglesOk(text)
    case _ => true
  }

  predicate TokensOk(ts: seq<Token>)
  {
    && (forall i :: 0 <= i < |ts| ==> TokenOk(ts[i]))
    && (forall i :: 0 < i < |ts| && ts[i].Word? ==> !ts[i - 1].Word?)
  }

  /** The first token that is no space, and the last one. */
  function FirstSolid(ts: seq<Token>): (t: Option<Token>)
  {
    if ts == [] then None else if ts[0].Blank? then FirstSolid(ts[1..]) else Some(ts[0])
  }

  function LastSolid(ts: seq<Token>): (t: Option<Token>)
  {
    if ts == [] then None
    else
      var t := LastSolid(ts[1..]);
      if t.Some? then t else if ts[0].Blank? then None else Some(ts[0])
  }

  /** A return type does not begin with template arguments, ends in no scope, and is set off from the name. */
  predicate ReturnOk(ret: seq<Token>)
  {
    && TokensOk(ret) && (FirstSolid(ret).Some? ==> !FirstSolid(ret).value.Angles?)
    && (LastSolid(ret).Some? ==> !LastSolid(ret).value.Colons?) && (ret != [] ==> !ret[|ret| - 1].Word?)
  }

  predicate ComponentOk(c: Component)
  {
    IsIdentifier(c.word) && (c.angles.Some? ==> AnglesOk(c.angles.value))
  }

  predicate SignatureOk(g: Signature)
  {
    && ReturnOk(g.ret) && g.names != [] && (forall i :: 0 <= i < |g.names| ==> ComponentOk(g.names[i]))
    && PlainArguments(g.args) && PlainTail(g.args, g.tail)
  }

  predicate HasOperator(ts: seq<Token>)
  {
    ts != [] && ((ts[0].Word? && BeginsWithOperator(ts[0].word)) || HasOperator(ts[1..]))
  }

  function TokenText(t: Token): (s: string)
  {
    match t
    case Word(w) => w
    case Colons => "::"
    case Blank => " "
    case Mark(c) => [c]
    case Angles(text) => "<" + (text + ">")
  }

  function TokensText(ts: seq<Token>): (s: string)
  {
    if ts == [] then "" else TokenText(ts[0]) + TokensText(ts[1..])
  }

  function ComponentTokens(c: Component): (ts: seq<Token>)
  {
    [Word(c.word)] + if c.angles.Some? then [Angles(c.angles.value)] else []
  }

  function NameTokens(ns: seq<Component>): (ts: seq<Token>)
    requires ns != []
  {
    if |ns| == 1 then ComponentTokens(ns[0]) else ComponentTokens(ns[0]) + ([Colons] + NameTokens(ns[1..]))
  }

  function RootTokens(rooted: bool): (ts: seq<Token>)
  {
    if rooted then [Colons] else []
  }

  /** Everything in front of the arguments. */
  function FrontTokens(g: Signature): (ts: seq<Token>)
    requires g.names != []
  {
    g.ret + (RootTokens(g.rooted) + NameTokens(g.names))
  }

  function SignatureText(g: Signature): (s: string)
    requires g.names != []
  {
    TokensText(FrontTokens(g)) + ("(" + (g.args + (")" + g.tail)))
  }

  // ---------------------------------------------------------------------------------------------
  // Scanning an identifier
  // ---------------------------------------------------------------------------------------------

  /** At the start of an identifier the keyword is seen exactly when the identifier begins with it. */
  lemma KeywordAtWord(s: string, p: nat, e: nat, w: string)
    requires IsIdentifier(w) && At(s, p, w) && p + |w| < e <= |s| && !IsName(s[p + |w|])
    ensures KeywordAt(s, p, e) <==> BeginsWithOperator(w)
  {
    if e - p >= 9 {
      if |w| >= 8 {
        assert s[p..p + 8] == s[p..p + |w|][..8] == w[..8];
        assert |w| == 8 ==> w[..8] == w;
      } else {
        assert s[p..p + 8][|w|] == s[p + |w|];
        assert forall i :: 0 <= i < 8 ==> IsName(OPERATOR[i]);
      }
    }
  }

  /** A fresh scan: no name is under way. */
  predicate AtNameStart(state: State)
  {
    state.NotStarted? || state.Ended? || state.Continued? || state.OperatorDetected?
  }

  /** The scan after an identifier that begins at the scan position. */
  function AfterWord(o: Opening, w: string): (r: Opening)
  {
    var q := o.p + |w|;
    if BeginsWithOperator(w) then
      Opening(q, OperatorDetected, if o.state.NotStarted? || o.state.Ended? then Some(o.p) else o.first, Some(o.p))
    else if o.state.OperatorDetected? then o.(p := q)
    else Opening(q, Started, if o.state.Continued? then o.first else Some(o.p), Some(o.p))
  }

  lemma StepNameChar(s: string, b: nat, e: nat, o: Opening)
    requires b <= o.p < e <= |s| && IsName(s[o.p])
    requires s[o.p] == 'o' ==> DetectOperator(s, b, e, o.p).None?
    ensures FindOpening(s, b, e, o) == FindOpening(s, b, e, NameChar(o))
  {
    hide DetectOperator, SkipTemplate;
  }

  /** Inside a name nothing changes but the position. */
  lemma {:induction false} RestOfWord(s: string, b: nat, e: nat, o: Opening, q: nat)
    requires b < o.p <= q < e <= |s|
    requires forall i :: o.p - 1 <= i < q ==> IsName(s[i])
    requires o.state.Started? || o.state.OperatorDetected?
    ensures FindOpening(s, b, e, o) == FindOpening(s, b, e, o.(p := q))
    decreases q - o.p
  {
    hide FindOpening;
    if o.p < q {
      StepNameChar(s, b, e, o);
      RestOfWord(s, b, e, o.(p := o.p + 1), q);
    }
  }

  lemma WordScans(s: string, b: nat, e: nat, o: Opening, w: string)
    requires IsIdentifier(w) && At(s, o.p, w) && b <= o.p && o.p + |w| < e <= |s| && !IsName(s[o.p + |w|])
    requires o.p > b ==> !IsName(s[o.p - 1])
    requires AtNameStart(o.state)
    ensures FindOpening(s, b, e, o) == FindOpening(s, b, e, AfterWord(o, w))
  {
    hide FindOpening, KeywordAt, SkipSpaces, TokenEnd;
    var q := o.p + |w|;
    KeywordAtWord(s, o.p, e, w);
    forall i | o.p <= i < q
      ensures IsName(s[i])
    {
      AtIndex(s, o.p, w, i - o.p);
    }
    if BeginsWithOperator(w) {
      OperatorWordScans(s, b, e, o, w);
      RestOfWord(s, b, e, AfterWord(o, w).(p := o.p + 8), q);
    } else {
      StepNameChar(s, b, e, o);
      RestOfWord(s, b, e, NameChar(o), q);
    }
  }

  /** A word that begins with the keyword is taken for a conversion operator. */
  lemma OperatorWordScans(s: string, b: nat, e: nat, o: Opening, w: string)
    requires b <= o.p && o.p + |w| < e <= |s| && At(s, o.p, w) && BeginsWithOperator(w)
    requires KeywordAt(s, o.p, e) && IsName(s[o.p + 8])
    requires o.p > b ==> !IsName(s[o.p - 1])
    ensures FindOpening(s, b, e, o) == FindOpening(s, b, e, AfterWord(o, w).(p := o.p + 8))
  {
    hide KeywordAt, SkipTemplate;
    AtIndex(s, o.p, w, 0);
    assert w[..8][0] == OPERATOR[0] == 'o';
    assert TokenEnd(s, o.p + 8, e) == Some(o.p + 8);
    hide TokenEnd;
    assert DetectOperator(s, b, e, o.p) == Some(o.p + 8);
  }

  // ---------------------------------------------------------------------------------------------
  // Scanning tokens
  // ---------------------------------------------------------------------------------------------

  /** The scan after a token that begins at the scan position. */
  function AfterToken(o: Opening, t: Token): (r: Opening)
  {
    match t
    case Word(w) => AfterWord(o, w)
    case Colons =>
      Opening(o.p + 2, if o.state.OperatorDetected? then o.state else Continued,
              if o.state.NotStarted? then Some(o.p) else o.first, o.last)
    case Blank => o.(p := o.p + 1, state := if o.state.Started? then Ended else o.state)
    case Mark(_) => o.(p := o.p + 1, state := EndName(o.state))
    case Angles(text) => o.(p := o.p + |text| + 2, state := EndName(o.state))
  }

  function AfterTokens(o: Opening, ts: seq<Token>): (r: Opening)
    decreases |ts|
  {
    if ts == [] then o else AfterTokens(AfterToken(o, ts[0]), ts[1..])
  }

  lemma {:induction false} BracketsClose(s: string, k: nat, text: string, p: nat, depth: nat)
    requires At(s, k, text) && p <= |text| && OpenBrackets(text, p, depth) > 0
    ensures BracketEnd(s, k + p, depth) == BracketEnd(s, k + |text|, OpenBrackets(text, p, depth))
    decreases |text| - p
  {
    if depth > 0 && p < |text| {
      AtIndex(s, k, text, p);
      BracketsClose(s, k, text, p + 1, if text[p] == '>' then depth - 1 else if text[p] == '<' then depth + 1 else depth);
    }
  }

  /** Template arguments are skipped with their brackets. */
  lemma AnglesSkip(s: string, p: nat, text: string)
    requires AnglesOk(text) && At(s, p, "<" + (text + ">"))
    ensures s[p] == '<' && s[p + |text| + 1] == '>'
    ensures SkipTemplate(s, p + 1, |s|, p + 1, 1) == p + |text| + 2
  {
    hide SkipTemplate, At, NoKeyword;
    AtSplits(s, p, "<", text + ">");
    AtSplits(s, p + 1, text, ">");
    AtIndex(s, p, "<", 0);
    var q := p + 1 + |text|;
    AtIndex(s, q, ">", 0);
    BracketsClose(s, p + 1, text, 0, 1);
    assert BracketEnd(s, q, 1) == BracketEnd(s, q + 1, 0) == q + 1;
    NoKeywordShift(s, p + 1, text);
    forall i | p + 1 <= i < q + 1
      ensures !KeywordAt(s, i, |s|)
    {
      if i == q {
        NoKeywordAtBracket(s, q);
      }
    }
    TemplateIsBracket(s, p + 1, p + 1, 1);
  }

  lemma NoKeywordAtBracket(s: string, q: nat)
    requires q < |s| && s[q] == '>'
    ensures !KeywordAt(s, q, |s|)
  {
    if |s| - q >= 9 {
      assert s[q..q + 8][0] == '>';
    }
  }

  /** A word begins where no name is under way and no name character stands in front. */
  predicate WordMayBegin(s: string, o: Opening)
    requires o.p <= |s|
  {
    AtNameStart(o.state) && (o.p > 0 ==> !IsName(s[o.p - 1]))
  }

  lemma ScansOneRound(s: string, o: Opening)
    requires o.p < |s| && s[o.p] != '(' && (s[o.p] == '<' ==> !o.state.NotStarted?)
    ensures FindOpening(s, 0, |s|, o) == FindOpening(s, 0, |s|, OpeningStep(s, 0, |s|, o))
  {
    hide OpeningStep;
  }

  lemma SpaceScans(s: string, o: Opening)
    requires o.p < |s| && s[o.p] == ' '
    ensures FindOpening(s, 0, |s|, o) == FindOpening(s, 0, |s|, AfterToken(o, Blank))
  {
    hide DetectOperator, SkipTemplate, FindOpening;
    ScansOneRound(s, o);
  }

  lemma ColonsScan(s: string, o: Opening)
    requires o.p + 1 < |s| && s[o.p] == ':' && s[o.p + 1] == ':'
    ensures FindOpening(s, 0, |s|, o) == FindOpening(s, 0, |s|, AfterToken(o, Colons))
  {
    hide DetectOperator, SkipTemplate, FindOpening;
    ScansOneRound(s, o);
  }

  lemma MarkScans(s: string, o: Opening, c: char)
    requires o.p < |s| && s[o.p] == c && TokenOk(Mark(c))
    ensures FindOpening(s, 0, |s|, o) == FindOpening(s, 0, |s|, AfterToken(o, Mark(c)))
  {
    hide DetectOperator, SkipTemplate, FindOpening;
    ScansOneRound(s, o);
  }

  lemma SymbolScans(s: string, o: Opening, t: Token)
    requires TokenOk(t) && (t.Colons? || t.Blank? || t.Mark?) && At(s, o.p, TokenText(t)) && o.p + |TokenText(t)| < |s|
    ensures FindOpening(s, 0, |s|, o) == FindOpening(s, 0, |s|, AfterToken(o, t))
    ensures !IsName(s[o.p + |TokenText(t)| - 1])
  {
    hide FindOpening, At;
    AtIndex(s, o.p, TokenText(t), 0);
    match t
    case Colons =>
      AtIndex(s, o.p, TokenText(t), 1);
      ColonsScan(s, o);
    case Blank => SpaceScans(s, o);
    case Mark(c) => MarkScans(s, o, c);
  }

  lemma AnglesScan(s: string, o: Opening, text: string)
    requires AnglesOk(text) && At(s, o.p, "<" + (text + ">")) && o.p + |text| + 2 < |s| && !o.state.NotStarted?
    ensures FindOpening(s, 0, |s|, o) == FindOpening(s, 0, |s|, AfterToken(o, Angles(text)))
    ensures !IsName(s[o.p + |text| + 1])
  {
    hide SkipTemplate, At, AnglesOk, FindOpening, DetectOperator;
    AnglesSkip(s, o.p, text);
    ScansOneRound(s, o);
  }

  /** One token is scanned as specified, and a word may follow it unless it is one. */
  lemma TokenScans(s: string, o: Opening, t: Token)
    requires TokenOk(t) && At(s, o.p, TokenText(t)) && o.p + |TokenText(t)| < |s|
    requires t.Word? ==> WordMayBegin(s, o) && !IsName(s[o.p + |t.word|])
    requires t.Angles? ==> !o.state.NotStarted?
    ensures var r := AfterToken(o, t);
      && r.p == o.p + |TokenText(t)| && FindOpening(s, 0, |s|, o) == FindOpening(s, 0, |s|, r)
      && (!t.Word? ==> WordMayBegin(s, r))
      && (r.state.NotStarted? ==> o.state.NotStarted? && t.Blank?)
  {
    hide FindOpening, At, IsIdentifier, AnglesOk, BeginsWithOperator;
    match t
    case Word(w) => WordScans(s, 0, |s|, o, w);
    case Angles(text) => AnglesScan(s, o, text);
    case _ => SymbolScans(s, o, t);
  }

  lemma NextIsNoName(t: Token)
    requires TokenOk(t) && !t.Word?
    ensures TokenText(t) != "" && !IsName(TokenText(t)[0])
  {
  }

  lemma WordsApart(ts: seq<Token>)
    requires TokensOk(ts) && ts != []
    ensures TokenOk(ts[0]) && TokensOk(ts[1..])
    ensures ts[0].Word? && |ts| > 1 ==> !ts[1].Word? && TokenOk(ts[1])
  {
    hide TokenOk;
  }

  /** The character behind the first token. */
  lemma BehindFirst(s: string, p: nat, ts: seq<Token>)
    requires TokensOk(ts) && ts != [] && At(s, p, TokensText(ts)) && p + |TokensText(ts)| < |s|
    requires ts[|ts| - 1].Word? ==> !IsName(s[p + |TokensText(ts)|])
    ensures At(s, p, TokenText(ts[0])) && At(s, p + |TokenText(ts[0])|, TokensText(ts[1..]))
    ensures ts[0].Word? ==> !IsName(s[p + |ts[0].word|])
  {
    hide TokenOk, TokenText, At;
    WordsApart(ts);
    AtSplits(s, p, TokenText(ts[0]), TokensText(ts[1..]));
    if ts[0].Word? {
      assert TokenText(ts[0]) == ts[0].word by {
        WordText(ts[0]);
      }
      if |ts| > 1 {
        NextIsNoName(ts[1]);
        var rest := TokensText(ts[1..]);
        assert rest == TokenText(ts[1]) + TokensText(ts[1..][1..]);
        AtIndex(s, p + |ts[0].word|, rest, 0);
      } else {
        assert TokensText(ts[1..]) == "";
      }
    }
  }

  lemma WordText(t: Token)
    ensures t.Word? ==> TokenText(t) == t.word
  {
  }

  /** Tokens are scanned as specified, and a word may follow them unless the last one is a word. */
  lemma {:induction false} TokensScan(s: string, o: Opening, ts: seq<Token>)
    requires TokensOk(ts) && At(s, o.p, TokensText(ts)) && o.p + |TokensText(ts)| < |s|
    requires ts != [] && ts[|ts| - 1].Word? ==> !IsName(s[o.p + |TokensText(ts)|])
    requires ts != [] && ts[0].Word? ==> WordMayBegin(s, o)
    requires o.state.NotStarted? && FirstSolid(ts).Some? ==> !FirstSolid(ts).value.Angles?
    ensures AfterTokens(o, ts).p == o.p + |TokensText(ts)|
    ensures FindOpening(s, 0, |s|, o) == FindOpening(s, 0, |s|, AfterTokens(o, ts))
    ensures ts != [] && !ts[|ts| - 1].Word? ==> WordMayBegin(s, AfterTokens(o, ts))
    decreases |ts|
  {
    hide FindOpening, At, TokenOk, TokenText, WordMayBegin, AfterToken;
    if ts != [] {
      WordsApart(ts);
      BehindFirst(s, o.p, ts);
      TokenScans(s, o, ts[0]);
      TokensScan(s, AfterToken(o, ts[0]), ts[1..]);
    }
  }

  lemma StopsAtParenthesis(s: string, b: nat, e: nat, o: Opening)
    requires b <= o.p < e <= |s| && s[o.p] == '(' && !o.state.NotStarted?
    ensures FindOpening(s, b, e, o) == o
  {
  }

  // ---------------------------------------------------------------------------------------------
  // Where names begin
  // ---------------------------------------------------------------------------------------------

  /** Names found so far begin in front of the scan position. */
  predicate Behind(o: Opening)
  {
    && (o.first.Some? ==> o.first.value < o.p) && (o.last.Some? ==> o.last.value < o.p)
    && (o.state.OperatorDetected? ==> o.last.Some?)
    && (o.state.NotStarted? ==> o.first.None? && o.last.None?)
  }

  lemma {:induction false} TokensAppend(o: Opening, a: seq<Token>, b: seq<Token>)
    ensures AfterTokens(o, a + b) == AfterTokens(AfterTokens(o, a), b)
    ensures TokensText(a + b) == TokensText(a) + TokensText(b)
    ensures HasOperator(a + b) <==> HasOperator(a) || HasOperator(b)
    decreases |a|
  {
    hide AfterToken, BeginsWithOperator, TokenText;
    if a == [] {
      assert a + b == b;
    } else {
      assert (a + b)[1..] == a[1..] + b;
      TokensAppend(AfterToken(o, a[0]), a[1..], b);
    }
  }

  lemma {:induction false} TokensBehind(o: Opening, ts: seq<Token>)
    requires Behind(o) && forall i :: 0 <= i < |ts| ==> TokenOk(ts[i])
    ensures Behind(AfterTokens(o, ts))
    ensures AfterTokens(o, ts).state.OperatorDetected? <==> o.state.OperatorDetected? || HasOperator(ts)
    ensures AfterTokens(o, ts).state.NotStarted? <==> o.state.NotStarted? && LastSolid(ts).None?
    decreases |ts|
  {
    hide BeginsWithOperator;
    if ts != [] {
      assert TokenOk(ts[0]);
      hide TokenOk;
      TokensBehind(AfterToken(o, ts[0]), ts[1..]);
    }
  }

  /** Behind a return type no name is under way. */
  lemma {:induction false} ReturnEnds(o: Opening, ts: seq<Token>)
    requires (ts != [] ==> !ts[|ts| - 1].Word?) && (LastSolid(ts).Some? ==> !LastSolid(ts).value.Colons?)
    requires LastSolid(ts).None? ==> !o.state.Continued? && (o.state.Started? ==> ts != [])
    ensures !AfterTokens(o, ts).state.Continued? && !AfterTokens(o, ts).state.Started?
    decreases |ts|
  {
    hide BeginsWithOperator;
    if ts != [] {
      ReturnEnds(AfterToken(o, ts[0]), ts[1..]);
    }
  }

  lemma ComponentAfter(o: Opening, c: Component)
    requires ComponentOk(c) && Behind(o) && !o.state.Started?
    ensures var r := AfterTokens(o, ComponentTokens(c));
      && r.p == o.p + |TokensText(ComponentTokens(c))| && Behind(r) && !r.state.NotStarted?
      && r.first == (if o.state.NotStarted? || o.state.Ended? then Some(o.p) else o.first)
      && r.last == (if BeginsWithOperator(c.word) || !o.state.OperatorDetected? then Some(o.p) else o.last)
      && (r.state.OperatorDetected? <==> o.state.OperatorDetected? || BeginsWithOperator(c.word))
      && HasOperator(ComponentTokens(c)) == BeginsWithOperator(c.word)
  {
    hide BeginsWithOperator, AfterTokens, TokensText, HasOperator, AnglesOk;
    OneToken(o, Word(c.word));
    if c.angles.Some? {
      var o1 := AfterToken(o, Word(c.word));
      OneToken(o1, Angles(c.angles.value));
      TokensAppend(o, [Word(c.word)], [Angles(c.angles.value)]);
    } else {
      assert ComponentTokens(c) == [Word(c.word)];
    }
  }

  lemma OneToken(o: Opening, t: Token)
    ensures AfterTokens(o, [t]) == AfterToken(o, t) && TokensText([t]) == TokenText(t)
    ensures HasOperator([t]) <==> t.Word? && BeginsWithOperator(t.word)
  {
    hide AfterToken, BeginsWithOperator, TokenText;
    assert [t][1..] == [];
  }

  /** Whether the unscoped name is found to begin at its last component. */
  predicate FindsLast(o: Opening, ns: seq<Component>)
    requires ns != []
  {
    BeginsWithOperator(ns[|ns| - 1].word) || !(o.state.OperatorDetected? || HasOperator(NameTokens(ns)))
  }

  lemma {:induction false} NameAfter(o: Opening, ns: seq<Component>)
    requires ns != [] && (forall i :: 0 <= i < |ns| ==> ComponentOk(ns[i])) && Behind(o) && !o.state.Started?
    ensures var r, last := AfterTokens(o, NameTokens(ns)), TokensText(ComponentTokens(ns[|ns| - 1]));
      && r.p == o.p + |TokensText(NameTokens(ns))| && !r.state.NotStarted?
      && r.first == (if o.state.NotStarted? || o.state.Ended? then Some(o.p) else o.first)
      && |last| <= |TokensText(NameTokens(ns))|
      && r.last.Some? && (r.last.value == r.p - |last| <==> FindsLast(o, ns))
    decreases |ns|
  {
    hide BeginsWithOperator, ComponentOk, ComponentTokens, HasOperator, TokensText, AfterTokens;
    ComponentAfter(o, ns[0]);
    if |ns| > 1 {
      var o1 := AfterTokens(o, ComponentTokens(ns[0]));
      TokensAppend(o, ComponentTokens(ns[0]), [Colons] + NameTokens(ns[1..]));
      ColonsAfter(o1, NameTokens(ns[1..]));
      NameAfter(AfterToken(o1, Colons), ns[1..]);
    }
  }

  lemma ColonsAfter(o: Opening, ts: seq<Token>)
    ensures AfterTokens(o, [Colons] + ts) == AfterTokens(AfterToken(o, Colons), ts)
    ensures TokensText([Colons] + ts) == "::" + TokensText(ts) && HasOperator([Colons] + ts) == HasOperator(ts)
  {
    hide AfterToken;
    assert ([Colons] + ts)[1..] == ts;
  }

  // ---------------------------------------------------------------------------------------------
  // Whole signatures
  // ---------------------------------------------------------------------------------------------

  lemma TokensOkAppend(a: seq<Token>, b: seq<Token>)
    requires TokensOk(a) && TokensOk(b) && (a != [] && b != [] && b[0].Word? ==> !a[|a| - 1].Word?)
    ensures TokensOk(a + b)
  {
    hide TokenOk;
  }

  lemma {:induction false} NameTokensOk(ns: seq<Component>)
    requires ns != [] && forall i :: 0 <= i < |ns| ==> ComponentOk(ns[i])
    ensures TokensOk(NameTokens(ns)) && NameTokens(ns) != [] && NameTokens(ns)[0].Word?
    decreases |ns|
  {
    hide IsIdentifier, AnglesOk;
    assert ComponentOk(ns[0]);
    if |ns| > 1 {
      NameTokensOk(ns[1..]);
      TokensOkAppend([Colons], NameTokens(ns[1..]));
      TokensOkAppend(ComponentTokens(ns[0]), [Colons] + NameTokens(ns[1..]));
    }
  }

  lemma {:induction false} FirstSolidAppend(a: seq<Token>, b: seq<Token>)
    ensures FirstSolid(a + b) == if FirstSolid(a).Some? then FirstSolid(a) else FirstSolid(b)
    decreases |a|
  {
    if a == [] {
      assert a + b == b;
    } else {
      assert (a + b)[1..] == a[1..] + b;
      FirstSolidAppend(a[1..], b);
    }
  }

  lemma FrontOk(g: Signature)
    requires SignatureOk(g)
    ensures var ts := FrontTokens(g); TokensOk(ts) && FirstSolid(ts).Some? && !FirstSolid(ts).value.Angles?
  {
    hide TokensOk, NameTokens, ComponentOk, PlainArguments, PlainTail;
    NameTokensOk(g.names);
    var names := NameTokens(g.names);
    assert TokensOk(RootTokens(g.rooted)) by {
      RootOk(g.rooted);
    }
    TokensOkAppend(RootTokens(g.rooted), names);
    var rest := RootTokens(g.rooted) + names;
    assert rest[0].Word? || rest[0].Colons?;
    TokensOkAppend(g.ret, rest);
    FirstSolidAppend(g.ret, rest);
  }

  lemma RootOk(rooted: bool)
    ensures TokensOk(RootTokens(rooted))
  {
  }

  /** The scan behind the whole name: where the scoped and the unscoped name were found to begin. */
  lemma FrontAfter(g: Signature)
    requires SignatureOk(g)
    ensures var r, a := AfterTokens(Opening(0, NotStarted, None, None), FrontTokens(g)), |TokensText(g.ret)|;
      var last := g.names[|g.names| - 1];
      && r.p == |TokensText(FrontTokens(g))| && !r.state.NotStarted?
      && (r.first == Some(a) <==> !HasOperator(g.ret) && (g.rooted ==> LastSolid(g.ret).None?))
      && |TokensText(ComponentTokens(last))| <= r.p
      && r.last.Some? && (r.last.value == r.p - |TokensText(ComponentTokens(last))|
                          <==> BeginsWithOperator(last.word) || !(HasOperator(g.ret) || HasOperator(NameTokens(g.names))))
  {
    hide AfterTokens, TokensText, HasOperator, NameTokens, ComponentTokens, ComponentOk, PlainArguments, PlainTail, TokenOk,
      FirstSolid, LastSolid, BeginsWithOperator;
    var start, root, names := Opening(0, NotStarted, None, None), RootTokens(g.rooted), NameTokens(g.names);
    var m := AfterTokens(start, g.ret);
    TokensAppend(start, g.ret, root + names);
    TokensAppend(m, root, names);
    TokensBehind(start, g.ret);
    ReturnEnds(start, g.ret);
    TokensLength(start, g.ret);
    RootAfter(m, g.rooted);
    NameAfter(AfterTokens(m, root), g.names);
  }

  lemma {:induction false} TokensLength(o: Opening, ts: seq<Token>)
    ensures AfterTokens(o, ts).p == o.p + |TokensText(ts)|
    decreases |ts|
  {
    hide BeginsWithOperator;
    if ts != [] {
      TokensLength(AfterToken(o, ts[0]), ts[1..]);
    }
  }

  lemma RootAfter(o: Opening, rooted: bool)
    requires Behind(o) && !o.state.Started?
    ensures var r := AfterTokens(o, RootTokens(rooted));
      && r == (if rooted then AfterToken(o, Colons) else o) && r.p == o.p + |TokensText(RootTokens(rooted))|
      && Behind(r) && !r.state.Started?
  {
    OneToken(o, Colons);
  }

  /** Where the parts of a signature are. */
  lemma SignatureParts(g: Signature)
    requires g.names != []
    ensures var s, z := SignatureText(g), |TokensText(FrontTokens(g))|;
      && At(s, 0, TokensText(FrontTokens(g))) && z < |s| && s[z] == '('
      && At(s, z + 1, g.args + ")") && s[z + 2 + |g.args|..] == g.tail
  {
    hide TokensText, FrontTokens;
    var s, z := SignatureText(g), |TokensText(FrontTokens(g))|;
    assert s[z + 1..z + 2 + |g.args|] == g.args + ")";
  }

  /** What is extracted ends at the arguments and begins where the scan of the tokens says. */
  lemma SignatureScan(g: Signature)
    requires SignatureOk(g)
    ensures var s, r := SignatureText(g), AfterTokens(Opening(0, NotStarted, None, None), FrontTokens(g));
      && ParseName(s, 0, |s|, true) == (if r.first.Some? then Some((r.first.value, |TokensText(FrontTokens(g))|)) else None)
      && ParseName(s, 0, |s|, false) == (if r.last.Some? then Some((r.last.value, |TokensText(FrontTokens(g))|)) else None)
  {
    hide TokensText, FrontTokens, SignatureText, FindOpening, FindClosing, BeginsWithOperator, HasOperator, ReturnOk, ComponentOk,
      PlainArguments, PlainTail, IsReturnType, AfterTokens, TokensOk, NameTokens, ComponentTokens, LastSolid, FirstSolid;
    var s, z := SignatureText(g), |TokensText(FrontTokens(g))|;
    var start := Opening(0, NotStarted, None, None);
    SignatureParts(g);
    FrontOk(g);
    TokensScan(s, start, FrontTokens(g));
    FrontAfter(g);
    StopsAtParenthesis(s, 0, |s|, AfterTokens(start, FrontTokens(g)));
    ArgumentsScan(s, z + 1, g.args, g.tail);
  }

  /**
   From an ordinary signature the scoped name is extracted exactly when no word of the return type begins with "operator"
   and the name, if it begins with "::", has nothing in front of it; and the unscoped name exactly when no word of the
   return type and no part of the name begins with "operator", or when the last part does.
   */
  lemma SignatureName(g: Signature)
    requires SignatureOk(g)
    ensures var s, a, z := SignatureText(g), |TokensText(g.ret)|, |TokensText(FrontTokens(g))|;
      var last := g.names[|g.names| - 1];
      && (ParseName(s, 0, |s|, true) == Some((a, z)) <==> !HasOperator(g.ret) && (g.rooted ==> LastSolid(g.ret).None?))
      && |TokensText(ComponentTokens(last))| <= z
      && (ParseName(s, 0, |s|, false) == Some((z - |TokensText(ComponentTokens(last))|, z))
          <==> BeginsWithOperator(last.word) || !(HasOperator(g.ret) || HasOperator(NameTokens(g.names))))
  {
    hide TokensText, FrontTokens, SignatureText, ParseName, BeginsWithOperator, HasOperator, SignatureOk, AfterTokens, NameTokens,
      ComponentTokens, LastSolid;
    SignatureScan(g);
    FrontAfter(g);
  }

  /** A name of two parts, or of one behind a return type of one word, without arguments. */
  function TwoParts(scope: string, name: string): (g: Signature)
  {
    Signature([], false, [Component(scope, None), Component(name, None)], "", "")
  }

  function RootedName(ret: string, name: string): (g: Signature)
  {
    Signature([Word(ret), Blank], true, [Component(name, None)], "", "")
  }

  lemma NoAngles(w: string)
    ensures ComponentTokens(Component(w, None)) == [Word(w)] && TokensText([Word(w)]) == w
    ensures HasOperator([Word(w)]) <==> BeginsWithOperator(w)
  {
    OneToken(Opening(0, NotStarted, None, None), Word(w));
  }

  lemma NoArguments()
    ensures PlainArguments("") && PlainTail("", "")
  {
    assert MatchingClose("" + ")", 0, 1) == Some(0);
  }

  lemma TwoPartsAre(scope: string, name: string)
    requires IsIdentifier(scope) && IsIdentifier(name)
    ensures var g := TwoParts(scope, name);
      && SignatureOk(g) && FrontTokens(g) == NameTokens(g.names) && TokensText(FrontTokens(g)) == scope + ("::" + name)
      && (HasOperator(NameTokens(g.names)) <==> BeginsWithOperator(scope) || BeginsWithOperator(name))
  {
    hide TokensText, HasOperator, ComponentTokens, IsIdentifier, BeginsWithOperator, PlainArguments, PlainTail;
    var g, o := TwoParts(scope, name), Opening(0, NotStarted, None, None);
    NoArguments();
    NoAngles(scope);
    NoAngles(name);
    assert g.names[1..] == [g.names[1]];
    assert NameTokens(g.names[1..]) == [Word(name)];
    ColonsAfter(o, [Word(name)]);
    TokensAppend(o, [Word(scope)], [Colons] + [Word(name)]);
  }

  /** For every scope that begins with "operator" the name without scope does not come out, unless it begins with it too. */
  lemma OperatorScopeMisread(scope: string, name: string)
    requires IsIdentifier(scope) && IsIdentifier(name) && BeginsWithOperator(scope) && !BeginsWithOperator(name)
    ensures var s, z := SignatureText(TwoParts(scope, name)), |scope| + 2 + |name|;
      s == scope + ("::" + name) + "()" && ParseName(s, 0, |s|, false) != Some((z - |name|, z))
  {
    hide ParseName, TokensText, HasOperator, ComponentTokens, NameTokens, SignatureOk, FrontTokens, IsIdentifier, BeginsWithOperator;
    TwoPartsAre(scope, name);
    NoAngles(name);
    SignatureName(TwoParts(scope, name));
  }

  lemma WordReturns(w: string)
    requires IsIdentifier(w)
    ensures ReturnOk([Word(w), Blank]) && LastSolid([Word(w), Blank]).Some?
  {
    hide IsIdentifier;
    var ts := [Word(w), Blank];
    assert ts[1..] == [Blank] && ts[1..][1..] == [];
    assert LastSolid([Blank]) == None && LastSolid(ts) == Some(Word(w)) && FirstSolid(ts) == Some(Word(w));
    assert TokenOk(Word(w)) && TokenOk(Blank);
  }

  lemma RootedNameIs(ret: string, name: string)
    requires IsIdentifier(ret) && IsIdentifier(name)
    ensures var g := RootedName(ret, name);
      && SignatureOk(g) && TokensText(g.ret) == ret + " " && TokensText(FrontTokens(g)) == ret + " " + ("::" + name)
      && LastSolid(g.ret).Some?
  {
    hide TokensText, HasOperator, ComponentTokens, IsIdentifier, BeginsWithOperator, PlainArguments, PlainTail, ReturnOk, LastSolid;
    var g, o := RootedName(ret, name), Opening(0, NotStarted, None, None);
    NoArguments();
    NoAngles(name);
    OneToken(o, Word(ret));
    OneToken(o, Blank);
    TokensAppend(o, [Word(ret)], [Blank]);
    assert g.ret == [Word(ret)] + [Blank];
    WordReturns(ret);
    ColonsAfter(o, [Word(name)]);
    TokensAppend(o, g.ret, [Colons] + [Word(name)]);
  }

  lemma RootedFirst(ret: string, name: string)
    requires IsIdentifier(ret) && IsIdentifier(name)
    ensures AfterTokens(Opening(0, NotStarted, None, None), FrontTokens(RootedName(ret, name))).first == Some(0)
  {
    hide AfterTokens, IsIdentifier, BeginsWithOperator, ComponentTokens;
    var o := Opening(0, NotStarted, None, None);
    var o1 := AfterToken(o, Word(ret));
    OneToken(o, Word(ret));
    OneToken(o1, Blank);
    TokensAppend(o, [Word(ret)], [Blank]);
    assert [Word(ret)] + [Blank] == [Word(ret), Blank];
    NoAngles(name);
    var o3 := AfterToken(AfterToken(o1, Blank), Colons);
    TokensAppend(o, [Word(ret), Blank], [Colons] + [Word(name)]);
    ColonsAfter(AfterToken(o1, Blank), [Word(name)]);
    OneToken(o3, Word(name));
  }

  /** For every return type and name, as in "int ::f()", the return type comes out as a scope of the name. */
  lemma RootedNameMisread(ret: string, name: string)
    requires IsIdentifier(ret) && IsIdentifier(name)
    ensures var s := SignatureText(RootedName(ret, name));
      s == ret + " " + ("::" + name) + "()" && ParseName(s, 0, |s|, true) == Some((0, |ret| + 3 + |name|))
  {
    hide ParseName, TokensText, HasOperator, ComponentTokens, NameTokens, SignatureOk, FrontTokens, LastSolid, IsIdentifier, AfterTokens;
    RootedNameIs(ret, name);
    RootedFirst(ret, name);
    SignatureScan(RootedName(ret, name));
  }
}
