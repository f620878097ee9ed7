/**
 The arguments of a function signature, as the name extraction of src/named_scope_format_parser.cpp scans them: up to the
 parenthesis that closes them, past nested parentheses, angle brackets and operator names.
 */
module ScopeArguments {
  import opened Wrappers
  import opened ScopeNames
  import opened TextAt

  /** The place behind the angle bracket that closes `depth` open ones. */
  function BracketEnd(s: string, p: nat, depth: nat): (q: nat)
    requires p <= |s|
    ensures p <= q <= |s|
    decreases |s| - p
  {
    if depth == 0 || p == |s| then p
    else BracketEnd(s, p + 1, if s[p] == '>' then depth - 1 else if s[p] == '<' then depth + 1 else depth)
  }

  /** The parenthesis that closes `depth` open ones, text in angle brackets aside. */
  function MatchingClose(s: string, p: nat, depth: nat): (q: Option<nat>)
    requires p <= |s| && depth > 0
    ensures q.Some? ==> p <= q.value < |s| && s[q.value] == ')'
    decreases |s| - p
  {
    if p == |s| then None
    else if s[p] == ')' then if depth == 1 then Some(p) else MatchingClose(s, p + 1, depth - 1)
    else if s[p] == '(' then MatchingClose(s, p + 1, depth + 1)
    else if s[p] == '<' then MatchingClose(s, BracketEnd(s, p + 1, 1), depth)
    else MatchingClose(s, p + 1, depth)
  }

  /** The first character that is neither a space nor a parenthesis, text in angle brackets aside. */
  function FirstMark(s: string, p: nat): (c: Option<char>)
    requires p <= |s|
    decreases |s| - p
  {
    if p == |s| then None
    else if s[p] == ' ' || s[p] == '(' || s[p] == ')' then FirstMark(s, p + 1)
    else if s[p] == '<' then FirstMark(s, BracketEnd(s, p + 1, 1))
    else Some(s[p])
  }

  predicate NoKeyword(s: string)
  {
    forall i :: 0 <= i <= |s| ==> !At(s, i, OPERATOR)
  }

  /** Parentheses and angle brackets are balanced, and no operator is named where there are angle brackets. */
  predicate PlainArguments(args: string)
  {
    MatchingClose(args + ")", 0, 1) == Some(|args|) && ('<' in args ==> NoKeyword(args))
  }

  /**
   What follows the arguments is not another argument list, and an array bound or template argument list in brackets only
   where the arguments do not begin with an ampersand.
   */
  predicate PlainTail(args: string, tail: string)
  {
    var p := SkipSpaces(tail, 0, |tail|);
    p < |tail| ==> tail[p] != '(' && (tail[p] == '[' ==> NoKeyword(args) && FirstMark(args, 0) != Some('&'))
  }

  // ---------------------------------------------------------------------------------------------
  // Scanning arguments
  // ---------------------------------------------------------------------------------------------

  lemma {:induction false} SpacesNeutral(s: string, p: nat, depth: nat)
    requires p <= |s| && depth > 0
    ensures MatchingClose(s, SkipSpaces(s, p, |s|), depth) == MatchingClose(s, p, depth)
    decreases |s| - p
  {
    if p < |s| && s[p] == ' ' {
      SpacesNeutral(s, p + 1, depth);
    }
  }

  lemma {:induction false} NamesNeutral(s: string, p: nat, depth: nat)
    requires p <= |s| && depth > 0
    ensures MatchingClose(s, SkipNames(s, p, |s|), depth) == MatchingClose(s, p, depth)
    decreases |s| - p
  {
    if p < |s| && IsName(s[p]) {
      NamesNeutral(s, p + 1, depth);
    }
  }

  /** Characters that are no brackets do not matter to the matching parenthesis. */
  lemma {:induction false} TextNeutral(s: string, p: nat, q: nat, depth: nat)
    requires p <= q <= |s| && depth > 0
    requires forall i :: p <= i < q ==> s[i] != '(' && s[i] != ')' && s[i] != '<'
    ensures MatchingClose(s, q, depth) == MatchingClose(s, p, depth)
    decreases q - p
  {
    if p < q {
      TextNeutral(s, p + 1, q, depth);
    }
  }

  /** An operator token leaves the nesting as it is: its parentheses come in pairs. */
  lemma TokenNeutral(s: string, p: nat, depth: nat)
    requires p < |s| && depth > 0 && s[p] != '<'
    ensures var q := TokenEnd(s, p, |s|); q.Some? ==> MatchingClose(s, q.value, depth) == MatchingClose(s, p, depth)
  {
    hide SkipSpaces, SkipNames;
    if s[p] == '(' {
      SpacesNeutral(s, p + 1, depth + 1);
    } else if s[p] == '[' {
      SpacesNeutral(s, p + 1, depth);
    } else if s[p] == '"' {
      if |s| - p >= 2 {
        SpacesNeutral(s, p + 2, depth);
        NamesNeutral(s, SkipSpaces(s, p + 2, |s|), depth);
      }
    } else {
      hide MatchingClose;
      SymbolNeutral(s, p, depth);
    }
  }

  lemma SymbolNeutral(s: string, p: nat, depth: nat)
    requires p < |s| && depth > 0 && s[p] != '<' && s[p] != '(' && s[p] != '[' && s[p] != '"'
    ensures var q := TokenEnd(s, p, |s|); q.Some? && MatchingClose(s, q.value, depth) == MatchingClose(s, p, depth)
  {
    hide MatchingClose;
    TextNeutral(s, p, TokenEnd(s, p, |s|).value, depth);
  }

  lemma KeywordNeutral(s: string, p: nat, depth: nat)
    requires p <= |s| && KeywordAt(s, p, |s|) && depth > 0
    ensures MatchingClose(s, p + 8, depth) == MatchingClose(s, p, depth)
  {
    forall i | p <= i < p + 8
      ensures s[i] != '(' && s[i] != ')' && s[i] != '<'
    {
      assert s[i] == s[p..p + 8][i - p] == OPERATOR[i - p];
    }
    hide MatchingClose;
    TextNeutral(s, p, p + 8, depth);
  }

  /** There are no angle brackets, or no operator is named. */
  predicate Tame(s: string, p: nat, q: nat)
    requires q <= |s|
  {
    || (forall i :: p <= i < q ==> s[i] != '<')
    || (forall i :: p <= i < q ==> !KeywordAt(s, i, |s|))
  }

  lemma OperatorNeutral(s: string, b: nat, p: nat, q: nat, depth: nat)
    requires b <= p <= |s| && depth > 0 && MatchingClose(s, p, depth) == Some(q) && Tame(s, p, q)
    ensures var v := DetectOperator(s, b, |s|, p); v.Some? ==> MatchingClose(s, v.value, depth) == Some(q)
  {
    hide MatchingClose, TokenEnd, KeywordAt;
    if DetectOperator(s, b, |s|, p).Some? {
      KeywordNeutral(s, p, depth);
      SpacesNeutral(s, p + 8, depth);
      var k := SkipSpaces(s, p + 8, |s|);
      assert p < q;
      TokenNeutral(s, k, depth);
    }
  }

  /** Where no operator is named, template parameters are skipped to the bracket that closes them. */
  lemma {:induction false} TemplateIsBracket(s: string, b: nat, p: nat, depth: nat)
    requires b <= p <= |s|
    requires forall i :: p <= i < BracketEnd(s, p, depth) ==> !KeywordAt(s, i, |s|)
    ensures SkipTemplate(s, b, |s|, p, depth) == BracketEnd(s, p, depth)
    decreases |s| - p
  {
    hide KeywordAt;
    if depth > 0 && p < |s| {
      TemplateIsBracket(s, b, p + 1, if s[p] == '>' then depth - 1 else if s[p] == '<' then depth + 1 else depth);
    }
  }

  /** Arguments are scanned up to the parenthesis that closes them. */
  lemma {:induction false} ArgumentsClose(s: string, b: nat, p: nat, q: nat, depth: nat, firstChar: Option<char>)
    requires b <= p <= |s| && depth > 0 && MatchingClose(s, p, depth) == Some(q) && Tame(s, p, q)
    ensures FindClosing(s, b, |s|, p, depth, firstChar).p == q
    decreases |s| - p
  {
    hide DetectOperator, SkipTemplate, KeywordAt;
    if s[p] == ')' {
      if depth > 1 {
        ArgumentsClose(s, b, p + 1, q, depth - 1, firstChar);
      }
    } else if s[p] == '(' {
      ArgumentsClose(s, b, p + 1, q, depth + 1, firstChar);
    } else if s[p] == '<' {
      TemplateIsBracket(s, p + 1, p + 1, 1);
      ArgumentsClose(s, b, BracketEnd(s, p + 1, 1), q, depth, firstChar);
    } else {
      OperatorNeutral(s, b, p, q, depth);
      var op := if s[p] == 'o' then DetectOperator(s, b, |s|, p) else None;
      if op.Some? {
        ArgumentsClose(s, b, op.value, q, depth, firstChar);
      } else {
        ArgumentsClose(s, b, p + 1, q, depth, if firstChar.None? && s[p] != ' ' then Some(s[p]) else firstChar);
      }
    }
  }

  lemma {:induction false} FirstCharStays(s: string, b: nat, p: nat, depth: nat, c: char)
    requires b <= p <= |s| && depth > 0
    ensures FindClosing(s, b, |s|, p, depth, Some(c)).firstChar == Some(c)
    decreases |s| - p
  {
    hide DetectOperator, SkipTemplate;
    if p < |s| {
      if s[p] == ')' {
        if depth > 1 {
          FirstCharStays(s, b, p + 1, depth - 1, c);
        }
      } else if s[p] == '(' {
        FirstCharStays(s, b, p + 1, depth + 1, c);
      } else if s[p] == '<' {
        FirstCharStays(s, b, SkipTemplate(s, p + 1, |s|, p + 1, 1), depth, c);
      } else {
        var op := if s[p] == 'o' then DetectOperator(s, b, |s|, p) else None;
        FirstCharStays(s, b, if op.Some? then op.value else p + 1, depth, c);
      }
    }
  }

  lemma NoOperator(s: string, b: nat, p: nat)
    requires b <= p <= |s| && !KeywordAt(s, p, |s|)
    ensures DetectOperator(s, b, |s|, p).None?
  {
  }

  /** The first significant character of the arguments, where no operator is named. */
  lemma {:induction false} FirstCharIsMark(s: string, b: nat, k: nat, args: string, p: nat, depth: nat)
    requires p <= |args| && At(s, k, args) && b <= k + p && depth > 0 && MatchingClose(s, k + p, depth) == Some(k + |args|)
    requires forall i :: k <= i < k + |args| ==> !KeywordAt(s, i, |s|)
    ensures FindClosing(s, b, |s|, k + p, depth, None).firstChar == FirstMark(args, p)
    decreases |args| - p
  {
    hide SkipTemplate, KeywordAt, DetectOperator, BracketEnd, At;
    if p < |args| {
      AtIndex(s, k, args, p);
      NoOperator(s, b, k + p);
      var c := args[p];
      if c == ')' {
        FirstCharIsMark(s, b, k, args, p + 1, depth - 1);
      } else if c == '(' {
        FirstCharIsMark(s, b, k, args, p + 1, depth + 1);
      } else if c == '<' {
        BracketShift(s, k, args, p + 1, 1);
        TemplateIsBracket(s, k + p + 1, k + p + 1, 1);
        FirstCharIsMark(s, b, k, args, BracketEnd(args, p + 1, 1), depth);
      } else if c == ' ' {
        FirstCharIsMark(s, b, k, args, p + 1, depth);
      } else {
        FirstCharStays(s, b, k + p + 1, depth, c);
      }
    }
  }

  /** The angle brackets of a part of a string. */
  lemma {:induction false} BracketShift(s: string, k: nat, a: string, p: nat, depth: nat)
    requires At(s, k, a) && p <= |a|
    ensures BracketEnd(a, p, depth) == var q := BracketEnd(s, k + p, depth); if q <= k + |a| then q - k else |a|
    decreases |a| - p
  {
    if depth > 0 && p < |a| {
      AtIndex(s, k, a, p);
      BracketShift(s, k, a, p + 1, if a[p] == '>' then depth - 1 else if a[p] == '<' then depth + 1 else depth);
    }
  }

  lemma {:induction false} MatchShift(s: string, k: nat, a: string, p: nat, depth: nat)
    requires At(s, k, a) && p <= |a| && depth > 0 && MatchingClose(a, p, depth).Some?
    ensures MatchingClose(s, k + p, depth) == Some(k + MatchingClose(a, p, depth).value)
    decreases |a| - p
  {
    AtIndex(s, k, a, p);
    hide At, BracketEnd;
    if a[p] == ')' {
      if depth > 1 {
        MatchShift(s, k, a, p + 1, depth - 1);
      }
    } else if a[p] == '(' {
      MatchShift(s, k, a, p + 1, depth + 1);
    } else if a[p] == '<' {
      BracketShift(s, k, a, p + 1, 1);
      MatchShift(s, k, a, BracketEnd(a, p + 1, 1), depth);
    } else {
      MatchShift(s, k, a, p + 1, depth);
    }
  }

  /** A keyword seen in a text with a bracket behind it is one of the text's own. */
  lemma NoKeywordShift(s: string, k: nat, args: string)
    requires At(s, k, args) && k + |args| < |s| && !IsName(s[k + |args|]) && NoKeyword(args)
    ensures forall i :: k <= i < k + |args| ==> !KeywordAt(s, i, |s|)
  {
    forall i | k <= i < k + |args|
      ensures !KeywordAt(s, i, |s|)
    {
      if KeywordAt(s, i, |s|) {
        KeywordWithin(s, k, args, i - k);
      }
    }
  }

  lemma KeywordWithin(s: string, k: nat, args: string, j: nat)
    requires At(s, k, args) && j < |args| && k + |args| < |s| && !IsName(s[k + |args|]) && KeywordAt(s, k + j, |s|)
    ensures At(args, j, OPERATOR)
  {
    forall i | 0 <= i < 8
      ensures s[k + j + i] == OPERATOR[i]
    {
      assert s[k + j..k + j + 8][i] == s[k + j + i];
    }
    assert forall i :: 0 <= i < 8 ==> IsName(OPERATOR[i]);
    assert s[k + |args|] == s[k + j + (|args| - j)];
    forall i | 0 <= i < 8
      ensures args[j + i] == OPERATOR[i]
    {
      AtIndex(s, k, args, j + i);
    }
  }

  lemma {:induction false} SpacesShift(s: string, k: nat, tail: string, p: nat)
    requires k <= |s| && s[k..] == tail && p <= |tail|
    ensures SkipSpaces(s, k + p, |s|) == k + SkipSpaces(tail, p, |tail|)
    decreases |tail| - p
  {
    if p < |tail| {
      assert s[k + p] == tail[p];
      SpacesShift(s, k, tail, p + 1);
    }
  }

  lemma TailIsPlain(s: string, k: nat, args: string, tail: string, close: Closing)
    requires k <= |s| && s[k..] == tail && PlainTail(args, tail) && close.p + 1 == k
    requires NoKeyword(args) ==> close.firstChar == FirstMark(args, 0)
    ensures !IsReturnType(s, close, |s|)
  {
    hide NoKeyword, FirstMark;
    SpacesShift(s, k, tail, 0);
    var p := SkipSpaces(tail, 0, |tail|);
    hide SkipSpaces;
    assert p < |tail| ==> s[k + p] == tail[p];
  }

  /** The arguments are scanned up to their own closing parenthesis, and what follows does not change what they are. */
  lemma ArgumentsScan(s: string, k: nat, args: string, tail: string)
    requires At(s, k, args + ")") && s[k + |args| + 1..] == tail && PlainArguments(args) && PlainTail(args, tail)
    ensures var close := FindClosing(s, k, |s|, k, 1, None); close.p == k + |args| && !IsReturnType(s, close, |s|)
  {
    hide FindClosing, IsReturnType, PlainTail, MatchingClose, KeywordAt, NoKeyword, FirstMark;
    MatchShift(s, k, args + ")", 0, 1);
    AtSplits(s, k, args, ")");
    AtIndex(s, k + |args|, ")", 0);
    if NoKeyword(args) {
      NoKeywordShift(s, k, args);
      FirstCharIsMark(s, k, k, args, 0, 1);
    } else {
      forall i | k <= i < k + |args|
        ensures s[i] != '<'
      {
        AtIndex(s, k, args, i - k);
      }
    }
    ArgumentsClose(s, k, k, k + |args|, 1, None);
    TailIsPlain(s, k + |args| + 1, args, tail, FindClosing(s, k, |s|, k, 1, None));
  }
}
