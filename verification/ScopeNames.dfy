/**
 Extraction of function names from function signatures (src/named_scope_format_parser.cpp). Positions are indices into
 the signature `s`; an interval is given by its first index and the index behind its last.
 */
module ScopeNames {
  import opened Wrappers

  predicate IsName(c: char)
  {
    '0' <= c <= '9' || 'A' <= c <= 'Z' || c == '_' || 'a' <= c <= 'z'
  }

  function SkipSpaces(s: string, p: nat, e: nat): (q: nat)
    requires p <= e <= |s|
    ensures p <= q <= e
    ensures q < e ==> s[q] != ' '
    decreases e - p
  {
    if p < e && s[p] == ' ' then SkipSpaces(s, p + 1, e) else p
  }

  function SkipNames(s: string, p: nat, e: nat): (q: nat)
    requires p <= e <= |s|
    ensures p <= q <= e
    decreases e - p
  {
    if p < e && IsName(s[p]) then SkipNames(s, p + 1, e) else p
  }

  // ---------------------------------------------------------------------------------------------
  // Operators
  // ---------------------------------------------------------------------------------------------

  const OPERATOR := "operator"

  /** The `operator` keyword is at `p`, with at least one character behind it. */
  predicate KeywordAt(s: string, p: nat, e: nat)
    requires p <= e <= |s|
  {
    e - p >= 9 && s[p..p + 8] == OPERATOR
  }

  /** The place behind the operator token that begins at `p`. */
  function TokenEnd(s: string, p: nat, e: nat): (q: Option<nat>)
    requires p < e <= |s|
    ensures q.Some? ==> p <= q.value <= e
  {
    var c := s[p];
    if c == '(' || c == '[' then
      var q := SkipSpaces(s, p + 1, e);
      if q < e && s[q] == (if c == '(' then ')' else ']') then Some(q + 1) else None
    else if c == '>' || c == '<' then
      if e - p >= 3 && s[p + 1] == c && s[p + 2] == '=' then Some(p + 3)
      else if e - p >= 2 && (s[p + 1] == c || s[p + 1] == '=') then Some(p + 2)
      else Some(p + 1)
    else if c == '-' && e - p >= 2 && s[p + 1] == '>' then
      if e - p >= 3 && s[p + 2] == '*' then Some(p + 3) else Some(p + 2)
    else if c == '-' || c == '=' || c == '|' || c == '&' || c == '+' then
      if e - p >= 2 && (s[p + 1] == c || s[p + 1] == '=') then Some(p + 2) else Some(p + 1)
    else if c == '*' || c == '/' || c == '%' || c == '^' then
      if e - p >= 2 && s[p + 1] == '=' then Some(p + 2) else Some(p + 1)
    else if c == ',' || c == '~' || c == '!' then Some(p + 1)
    else if c == '"' then
      if e - p >= 2 && s[p + 1] == '"' then Some(SkipNames(s, SkipSpaces(s, p + 2, e), e)) else None
    else Some(p)
  }

  /** The place behind an operator name that begins at `k`, if there is one. */
  function DetectOperator(s: string, b: nat, e: nat, k: nat): (q: Option<nat>)
    requires b <= k <= e <= |s|
    ensures q.Some? ==> k < q.value <= e
  {
    if !KeywordAt(s, k, e) || (k > b && IsName(s[k - 1])) then None
    else
      var p := SkipSpaces(s, k + 8, e);
      if p == e then None else TokenEnd(s, p, e)
  }

  // ---------------------------------------------------------------------------------------------
  // Scanners
  // ---------------------------------------------------------------------------------------------

  function SkipTemplate(s: string, b: nat, e: nat, p: nat, depth: nat): (q: nat)
    requires b <= p <= e <= |s|
    ensures p <= q <= e
    decreases e - p
  {
    if depth == 0 || p == e then p
    else if s[p] == '>' then SkipTemplate(s, b, e, p + 1, depth - 1)
    else if s[p] == '<' then SkipTemplate(s, b, e, p + 1, depth + 1)
    else
      var op := if s[p] == 'o' then DetectOperator(s, b, e, p) else None;
      if op.Some? then SkipTemplate(s, b, e, op.value, depth) else SkipTemplate(s, b, e, p + 1, depth)
  }

  datatype State = NotStarted | Started | Continued | Ended | OperatorDetected

  /** A scan for the opening parenthesis under way, or its result when it stops at `p`. */
  datatype Opening = Opening(p: nat, state: State, first: Option<nat>, last: Option<nat>)

  /** Where names begin, and which scan positions are possible. */
  ghost predicate OpeningOk(o: Opening, b: nat, e: nat)
  {
    && b <= o.p <= e
    && (o.first.Some? ==> b <= o.first.value < o.p)
    && (o.last.Some? ==> b <= o.last.value < o.p)
    && (o.first.Some? && o.last.Some? ==> o.first.value <= o.last.value)
    && (o.state.NotStarted? ==> o.first.None? && o.last.None?)
    && (!o.state.NotStarted? ==> b < o.p)
  }

  /** A name character at the scan position. */
  function NameChar(o: Opening): (r: Opening)
  {
    if o.state.OperatorDetected? || o.state.Started? then o.(p := o.p + 1)
    else if o.state.Continued? then Opening(o.p + 1, Started, o.first, Some(o.p))
    else Opening(o.p + 1, Started, Some(o.p), Some(o.p))
  }

  /** The state after something that is no part of a name. */
  function EndName(state: State): (r: State)
  {
    if state.OperatorDetected? then state else Ended
  }

  /** One round of the loop, at a character that does not stop it. */
  function OpeningStep(s: string, b: nat, e: nat, o: Opening): (r: Opening)
    requires b <= o.p < e <= |s|
    ensures o.p < r.p <= e
  {
    var c := s[o.p];
    if c == '<' then Opening(SkipTemplate(s, o.p + 1, e, o.p + 1, 1), EndName(o.state), o.first, o.last)
    else if c == ' ' then o.(p := o.p + 1, state := if o.state.Started? then Ended else o.state)
    else if c == ':' then
      if o.p + 1 < e && s[o.p + 1] == ':' then
        Opening(o.p + 2, if o.state.OperatorDetected? then o.state else Continued,
                if o.state.NotStarted? then Some(o.p) else o.first, o.last)
      else o.(p := o.p + 1, state := EndName(o.state))
    else
      var op := if c == 'o' then DetectOperator(s, b, e, o.p) else None;
      if op.Some? then
        Opening(op.value, OperatorDetected, if o.state.NotStarted? || o.state.Ended? then Some(o.p) else o.first, Some(o.p))
      else if IsName(c) || c == '~' then NameChar(o)
      else o.(p := o.p + 1, state := EndName(o.state))
  }

  /** The scan for the opening parenthesis; it stops at the end of the interval when there is none. */
  function FindOpening(s: string, b: nat, e: nat, o: Opening): (r: Opening)
    requires b <= o.p <= e <= |s|
    ensures o.p <= r.p <= e
    decreases e - o.p
  {
    if o.p == e then o
    else if s[o.p] == '(' then if o.state.NotStarted? then o.(p := e) else o
    else if s[o.p] == '<' && o.state.NotStarted? then o.(p := e)
    else FindOpening(s, b, e, OpeningStep(s, b, e, o))
  }

  lemma OpeningStepKeeps(s: string, b: nat, e: nat, o: Opening)
    requires o.p < e <= |s| && OpeningOk(o, b, e) && s[o.p] != '('
    requires s[o.p] == '<' ==> !o.state.NotStarted?
    ensures OpeningOk(OpeningStep(s, b, e, o), b, e)
  {
    hide SkipTemplate, DetectOperator;
  }

  /** Names begin in the interval, the unscoped one not before the scoped one, and the scan stops at a parenthesis. */
  lemma {:induction false} FindOpeningOk(s: string, b: nat, e: nat, o: Opening)
    requires e <= |s| && OpeningOk(o, b, e)
    ensures var r := FindOpening(s, b, e, o);
      OpeningOk(r, b, e) && (r.p < e ==> s[r.p] == '(' && b < r.p)
    decreases e - o.p
  {
    hide OpeningStep;
    if o.p < e && s[o.p] != '(' && !(s[o.p] == '<' && o.state.NotStarted?) {
      OpeningStepKeeps(s, b, e, o);
      FindOpeningOk(s, b, e, OpeningStep(s, b, e, o));
    }
  }

  /** The scan for the closing parenthesis, with the first significant character on the way. */
  datatype Closing = Closing(p: nat, firstChar: Option<char>)

  function FindClosing(s: string, b: nat, e: nat, p: nat, depth: nat, firstChar: Option<char>): (r: Closing)
    requires b <= p <= e <= |s| && depth > 0
    ensures p <= r.p <= e
    ensures r.p < e ==> s[r.p] == ')'
    decreases e - p
  {
    if p == e then Closing(p, firstChar)
    else
      var c := s[p];
      if c == ')' then if depth == 1 then Closing(p, firstChar) else FindClosing(s, b, e, p + 1, depth - 1, firstChar)
      else if c == '(' then FindClosing(s, b, e, p + 1, depth + 1, firstChar)
      else if c == '<' then FindClosing(s, b, e, SkipTemplate(s, p + 1, e, p + 1, 1), depth, firstChar)
      else
        var op := if c == 'o' then DetectOperator(s, b, e, p) else None;
        if op.Some? then FindClosing(s, b, e, op.value, depth, firstChar)
        else FindClosing(s, b, e, p + 1, depth, if firstChar.None? && c != ' ' then Some(c) else firstChar)
  }

  // ---------------------------------------------------------------------------------------------
  // Names
  // ---------------------------------------------------------------------------------------------

  /** What follows the parentheses makes them part of a function or array return type. */
  predicate IsReturnType(s: string, close: Closing, e: nat)
    requires close.p < e <= |s|
  {
    var p := SkipSpaces(s, close.p + 1, e);
    p < e && (s[p] == '(' || (s[p] == '[' && close.firstChar == Some('&')))
  }

  /** The interval of the function name in a signature. */
  function ParseName(s: string, b: nat, e: nat, includeScope: bool): (r: Option<(nat, nat)>)
    requires b <= e <= |s|
    decreases e - b
  {
    if b == e then None
    else
      var open := FindOpening(s, b, e, Opening(b, NotStarted, None, None));
      if open.p == e then None
      else
        var close := FindClosing(s, open.p + 1, e, open.p + 1, 1, None);
        if close.p == e then None
        else if IsReturnType(s, close, e) then ParseName(s, open.p + 1, close.p, includeScope)
        else
          var begin := if includeScope then open.first else open.last;
          if begin.None? then None else Some((begin.value, open.p))
  }

  /**
   A name found in any string is not empty, lies inside the given interval and ends just before an opening
   parenthesis.
   */
  lemma {:induction false} NameRange(s: string, b: nat, e: nat, includeScope: bool)
    requires b <= e <= |s|
    ensures var r := ParseName(s, b, e, includeScope);
      r.Some? ==> b <= r.value.0 < r.value.1 < e && s[r.value.1] == '('
    decreases e - b
  {
    hide FindOpening, FindClosing, IsReturnType;
    if b < e {
      var start := Opening(b, NotStarted, None, None);
      FindOpeningOk(s, b, e, start);
      var open := FindOpening(s, b, e, start);
      if open.p < e {
        var close := FindClosing(s, open.p + 1, e, open.p + 1, 1, None);
        if close.p < e && IsReturnType(s, close, e) {
          NameRange(s, open.p + 1, close.p, includeScope);
        }
      }
    }
  }

  /** The name without scope is the end of the name with scope, whenever both are found. */
  lemma {:induction false} UnscopedIsSuffix(s: string, b: nat, e: nat)
    requires b <= e <= |s|
    ensures var scoped, plain := ParseName(s, b, e, true), ParseName(s, b, e, false);
      scoped.Some? && plain.Some? ==> scoped.value.0 <= plain.value.0 && scoped.value.1 == plain.value.1
    decreases e - b
  {
    hide FindOpening, FindClosing, IsReturnType;
    if b < e {
      var start := Opening(b, NotStarted, None, None);
      FindOpeningOk(s, b, e, start);
      var open := FindOpening(s, b, e, start);
      if open.p < e {
        var close := FindClosing(s, open.p + 1, e, open.p + 1, 1, None);
        if close.p < e && IsReturnType(s, close, e) {
          UnscopedIsSuffix(s, open.p + 1, close.p);
        }
      }
    }
  }

  /** Spaces at the start do not matter to the scan. */
  lemma {:induction false} SpacesScan(s: string, b: nat, e: nat, p: nat)
    requires b <= p <= e <= |s|
    ensures FindOpening(s, b, e, Opening(p, NotStarted, None, None))
         == FindOpening(s, b, e, Opening(SkipSpaces(s, p, e), NotStarted, None, None))
    decreases e - p
  {
    hide DetectOperator, SkipTemplate;
    if p < e && s[p] == ' ' {
      SpacesScan(s, b, e, p + 1);
    }
  }

  /** A text that begins with a parenthesis or an angle bracket, such as "(unknown)", has no name. */
  lemma BracketFirstNoName(s: string, b: nat, e: nat, includeScope: bool)
    requires b <= e <= |s|
    requires var p := SkipSpaces(s, b, e); p < e && (s[p] == '(' || s[p] == '<')
    ensures ParseName(s, b, e, includeScope) == None
  {
    SpacesScan(s, b, e, b);
  }
}
