/** The scanning loops of src/named_scope_format_parser.cpp, proved against the functions of ScopeNames. */
module ScopeNameScan {
  import opened Wrappers
  import opened ScopeNames

  method SkipSpacesAt(s: string, start: nat, e: nat) returns (p: nat)
    requires start <= e <= |s|
    ensures p == SkipSpaces(s, start, e)
  {
    p := start;
    while p < e && s[p] == ' '
      invariant start <= p <= e && SkipSpaces(s, p, e) == SkipSpaces(s, start, e)
    {
      p := p + 1;
    }
  }

  /** `skip_template_parameters`. */
  method SkipTemplateParameters(s: string, b: nat, e: nat) returns (p: nat)
    requires b <= e <= |s|
    ensures p == SkipTemplate(s, b, e, b, 1)
  {
    hide DetectOperator;
    var depth := 1;
    p := b;
    while depth > 0 && p != e
      invariant b <= p <= e && 0 <= depth
      invariant SkipTemplate(s, b, e, p, depth) == SkipTemplate(s, b, e, b, 1)
      decreases e - p
    {
      if s[p] == '>' {
        depth := depth - 1;
      } else if s[p] == '<' {
        depth := depth + 1;
      } else if s[p] == 'o' {
        var op := DetectOperator(s, b, e, p);
        if op.Some? {
          p := op.value;
          continue;
        }
      }
      p := p + 1;
    }
  }

  /** `find_opening_parenthesis`. */
  method FindOpeningParenthesis(s: string, b: nat, e: nat) returns (p: nat, first: Option<nat>, last: Option<nat>)
    requires b <= e <= |s|
    ensures var r := FindOpening(s, b, e, Opening(b, NotStarted, None, None));
      p == r.p && (p < e ==> first == r.first && last == r.last)
  {
    hide DetectOperator, SkipTemplate;
    var state := NotStarted;
    p, first, last := b, None, None;
    while p != e
      invariant b <= p <= e
      invariant FindOpening(s, b, e, Opening(p, state, first, last)) == FindOpening(s, b, e, Opening(b, NotStarted, None, None))
      decreases e - p
    {
      var c := s[p];
      ghost var o := Opening(p, state, first, last);
      if c == '(' {
        if state.NotStarted? {
          p := e;
        }
        return;
      } else if c == '<' {
        if state.NotStarted? {
          p := e;
          return;
        }
        p := SkipTemplateParameters(s, p + 1, e);
        if !state.OperatorDetected? {
          state := Ended;
        }
      } else if c == ' ' {
        if state.Started? {
          state := Ended;
        }
        p := p + 1;
      } else if c == ':' {
        p := p + 1;
        if p != e && s[p] == ':' {
          if state.NotStarted? {
            first := Some(p - 1);
          }
          if !state.OperatorDetected? {
            state := Continued;
          }
          p := p + 1;
        } else if !state.OperatorDetected? {
          state := Ended;
        }
      } else {
        p, state, first, last := OtherCharacter(s, b, e, p, state, first, last);
      }
      assert Opening(p, state, first, last) == OpeningStep(s, b, e, o);
    }
  }

  /** The operator and name cases of the loop. */
  method OtherCharacter(s: string, b: nat, e: nat, p0: nat, state0: State, first0: Option<nat>, last0: Option<nat>)
    returns (p: nat, state: State, first: Option<nat>, last: Option<nat>)
    requires b <= p0 < e <= |s|
    requires s[p0] != '(' && s[p0] != '<' && s[p0] != ' ' && s[p0] != ':'
    ensures Opening(p, state, first, last) == OpeningStep(s, b, e, Opening(p0, state0, first0, last0))
  {
    hide DetectOperator, SkipTemplate;
    p, state, first, last := p0, state0, first0, last0;
    var c := s[p];
    if c == 'o' {
      var op := DetectOperator(s, b, e, p);
      if op.Some? {
        if state.NotStarted? || state.Ended? {
          first := Some(p);
        }
        last := Some(p);
        p := op.value;
        state := OperatorDetected;
        return;
      }
    }
    if !state.OperatorDetected? {
      if IsName(c) || c == '~' {
        if !state.Started? {
          if state.NotStarted? || state.Ended? {
            first := Some(p);
          }
          last := Some(p);
          state := Started;
        }
      } else {
        state := Ended;
      }
    }
    p := p + 1;
  }

  /** `find_closing_parenthesis`. */
  method FindClosingParenthesis(s: string, b: nat, e: nat) returns (p: nat, firstChar: Option<char>)
    requires b <= e <= |s|
    ensures Closing(p, firstChar) == FindClosing(s, b, e, b, 1, None)
  {
    hide DetectOperator, SkipTemplate;
    var depth := 1;
    p, firstChar := b, None;
    while p != e
      invariant b <= p <= e && depth > 0
      invariant FindClosing(s, b, e, p, depth, firstChar) == FindClosing(s, b, e, b, 1, None)
      decreases e - p
    {
      var c := s[p];
      if c == ')' {
        if depth == 1 {
          return;
        }
        depth := depth - 1;
      } else if c == '(' {
        depth := depth + 1;
      } else if c == '<' {
        p := SkipTemplateParameters(s, p + 1, e);
        continue;
      } else {
        if c == 'o' {
          var op := DetectOperator(s, b, e, p);
          if op.Some? {
            p := op.value;
            continue;
          }
        }
        if firstChar.None? && c != ' ' {
          firstChar := Some(c);
        }
      }
      p := p + 1;
    }
  }

  /** `parse_function_name`: the range is narrowed on success and left as it was on failure. */
  method ParseFunctionName(s: string, begin: nat, end: nat, includeScope: bool)
    returns (ok: bool, b: nat, e: nat)
    requires begin <= end <= |s|
    ensures ok == ParseName(s, begin, end, includeScope).Some?
    ensures ok ==> ParseName(s, begin, end, includeScope) == Some((b, e))
    ensures !ok ==> b == begin && e == end
  {
    hide FindOpening, FindClosing;
    b, e := begin, end;
    while b != e
      invariant b <= e <= |s|
      invariant ParseName(s, b, e, includeScope) == ParseName(s, begin, end, includeScope)
      decreases e - b
    {
      var open, first, last := FindOpeningParenthesis(s, b, e);
      if open == e {
        return false, begin, end;
      }
      var close, firstChar := FindClosingParenthesis(s, open + 1, e);
      if close == e {
        return false, begin, end;
      }
      var p := SkipSpacesAt(s, close + 1, e);
      if p < e && (s[p] == '(' || (s[p] == '[' && firstChar == Some('&'))) {
        b, e := open + 1, close;
        continue;
      }
      var name := if includeScope then first else last;
      if name.None? {
        return false, begin, end;
      }
      return true, name.value, open;
    }
    return false, begin, end;
  }
}
