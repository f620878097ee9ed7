/**
 The filter parser object (src/setup/filter_parser.cpp): pending parts of a relation and a stack of filters, changed
 while positions move through the text. Every method is proved against the functions of FilterText; an exception of
 the source is a false `ok`. The "should never happen" branches are preconditions here, so no run reaches them.
 */
module FilterParser {
  import opened Wrappers
  import opened FilterText

  lemma TrimStep(text: string, p: nat)
    requires p <= |text|
    ensures p == |text| || !IsSpace(text[p]) ==> Trim(text[p..]) == text[p..]
    ensures p < |text| && IsSpace(text[p]) ==> Trim(text[p..]) == Trim(text[p + 1..])
  {
    if p < |text| {
      assert text[p..][0] == text[p] && text[p..][1..] == text[p + 1..];
    }
  }

  lemma WordStep(text: string, p: nat)
    requires p <= |text|
    ensures p == |text| || !IsWordChar(text[p]) ==> WordRun(text[p..]) == 0
    ensures p < |text| && IsWordChar(text[p]) ==> WordRun(text[p..]) == 1 + WordRun(text[p + 1..])
  {
    if p < |text| {
      assert text[p..][0] == text[p] && text[p..][1..] == text[p + 1..];
    }
  }

  lemma OperandStep(text: string, p: nat)
    requires p <= |text|
    ensures p == |text| || !IsOperandChar(text[p]) ==> OperandRun(text[p..]) == 0
    ensures p < |text| && IsOperandChar(text[p]) ==> OperandRun(text[p..]) == 1 + OperandRun(text[p + 1..])
  {
    if p < |text| {
      assert text[p..][0] == text[p] && text[p..][1..] == text[p + 1..];
    }
  }

  lemma QuotedStep(text: string, p: nat)
    requires p < |text|
    ensures text[p] == '"' ==> QuotedRun(text[p..]) == Some(0)
    ensures text[p] == '\\' && p + 1 == |text| ==> QuotedRun(text[p..]) == None
    ensures text[p] == '\\' && p + 1 < |text| ==> QuotedRun(text[p..]) == Later(QuotedRun(text[p + 2..]), 2)
    ensures text[p] != '"' && text[p] != '\\' ==> QuotedRun(text[p..]) == Later(QuotedRun(text[p + 1..]), 1)
  {
    assert text[p..][0] == text[p] && text[p..][1..] == text[p + 1..];
    if p + 1 < |text| {
      assert text[p..][2..] == text[p + 2..];
    }
  }

  function Later(n: Option<nat>, k: nat): (r: Option<nat>)
  {
    if n.Some? then Some(n.value + k) else None
  }

  class FilterParser {
    const text: string
    var attributeName: Option<string>
    var operand: Option<string>
    var comparison: Option<Relation>
    var customRelation: string
    var subexpressions: seq<Filter>

    /** No relation is pending. */
    predicate Idle()
      reads this
    {
      attributeName.None? && operand.None? && comparison.None? && customRelation == ""
    }

    constructor (text: string)
      ensures this.text == text && Idle() && subexpressions == []
    {
      this.text := text;
      attributeName, operand, comparison, customRelation, subexpressions := None, None, None, "", [];
    }

    // -------------------------------------------------------------------------------------------
    // Scanning
    // -------------------------------------------------------------------------------------------

    method TrimSpacesLeft(start: nat) returns (p: nat)
      requires start <= |text|
      ensures start <= p <= |text| && text[p..] == Trim(text[start..])
    {
      hide Trim;
      p := start;
      while p < |text| && IsSpace(text[p])
        invariant start <= p <= |text| && Trim(text[p..]) == Trim(text[start..])
      {
        TrimStep(text, p);
        p := p + 1;
      }
      TrimStep(text, p);
    }

    method ScanWord(start: nat) returns (p: nat)
      requires start <= |text|
      ensures start <= p <= |text| && p == start + WordRun(text[start..])
    {
      hide WordRun;
      p := start;
      while p < |text| && IsWordChar(text[p])
        invariant start <= p <= |text| && p + WordRun(text[p..]) == start + WordRun(text[start..])
      {
        WordStep(text, p);
        p := p + 1;
      }
      WordStep(text, p);
    }

    /** The loop over keyword and text ends at the keyword's terminator, at a difference, or at the end of the text. */
    method ScanKeyword(start: nat, keyword: string) returns (found: bool, next: nat)
      requires start <= |text|
      ensures found == Keyword(text[start..], keyword)
      ensures found ==> next == start + |keyword| < |text|
    {
      ghost var s := text[start..];
      var k := 0;
      next := start;
      while start + k < |text|
        invariant 0 <= k <= |keyword| && start + k <= |text|
        invariant s[..k] == keyword[..k]
      {
        assert s[k] == text[start + k];
        if k == |keyword| {
          assert keyword[..k] == keyword;
          if IsSpace(text[start + k]) {
            return true, start + k;
          }
          return false, start;
        }
        if text[start + k] != keyword[k] {
          assert |keyword| < |s| ==> s[..|keyword|][k] == s[k];
          return false, start;
        }
        k := k + 1;
      }
      found := false;
    }

    method ParseOperandAt(start: nat) returns (ok: bool, value: string, p: nat)
      requires start <= |text|
      ensures ok == ParseOperand(text[start..]).Operand?
      ensures ok ==> start < p <= |text|
      ensures ok ==> value == ParseOperand(text[start..]).text && text[p..] == ParseOperand(text[start..]).rest
    {
      ok, value, p := false, "", start;
      ghost var s := text[start..];
      if p == |text| {
        return;
      }
      assert s[0] == text[p];
      assert s[1..] == text[p + 1..];
      if text[p] == '"' {
        hide QuotedRun;
        ok, p := ScanQuoted(start + 1);
        if ok {
          value := text[start + 1..p];
          assert s[1..][..p - start - 1] == value;
          p := p + 1;
          assert s[p - start..] == text[p..];
        }
      } else {
        hide OperandRun;
        p := p + 1;
        while p < |text| && IsOperandChar(text[p])
          invariant start < p <= |text|
          invariant p + OperandRun(text[p..]) == start + 1 + OperandRun(text[start + 1..])
        {
          OperandStep(text, p);
          p := p + 1;
        }
        OperandStep(text, p);
        ok, value := true, text[start..p];
        assert s[..p - start] == value && s[p - start..] == text[p..];
      }
    }

    /** The closing quote of a quoted operand. */
    method ScanQuoted(start: nat) returns (ok: bool, p: nat)
      requires start <= |text|
      ensures ok == QuotedRun(text[start..]).Some?
      ensures ok ==> start <= p < |text| && p == start + QuotedRun(text[start..]).value
    {
      hide QuotedRun;
      p := start;
      while p < |text|
        invariant start <= p <= |text|
        invariant QuotedRun(text[start..]) == Later(QuotedRun(text[p..]), p - start)
        decreases |text| - p
      {
        QuotedStep(text, p);
        if text[p] == '"' {
          return true, p;
        } else if text[p] == '\\' {
          p := p + 1;
          if p == |text| {
            return false, p;
          }
        }
        p := p + 1;
      }
      QuotedAtEnd();
      ok := false;
    }

    static lemma QuotedAtEnd()
      ensures QuotedRun("") == None
    {
    }

    // -------------------------------------------------------------------------------------------
    // Handlers
    // -------------------------------------------------------------------------------------------

    /** The pending parts make up one filter. */
    function Pending(): (f: Filter)
      requires attributeName.Some?
      requires operand.Some? ==> comparison.Some? || customRelation != ""
      reads this
    {
      if operand.None? then Exists(attributeName.value)
      else if comparison.Some? then Compare(attributeName.value, comparison.value, operand.value)
      else Compare(attributeName.value, Custom(customRelation), operand.value)
    }

    method OnRelationComplete()
      requires attributeName.Some?
      requires operand.Some? ==> comparison.Some? != (customRelation != "")
      requires operand.None? ==> comparison.None? && customRelation == ""
      modifies this
      ensures Idle()
      ensures subexpressions == old(subexpressions) + [old(Pending())]
    {
      if operand.Some? {
        if comparison.Some? {
          subexpressions := subexpressions + [Compare(attributeName.value, comparison.value, operand.value)];
          comparison := None;
        } else {
          subexpressions := subexpressions + [Compare(attributeName.value, Custom(customRelation), operand.value)];
          customRelation := "";
        }
        operand := None;
      } else {
        subexpressions := subexpressions + [Exists(attributeName.value)];
      }
      attributeName := None;
    }

    method OnNegation()
      requires subexpressions != []
      modifies this`subexpressions
      ensures subexpressions == old(subexpressions[..|subexpressions| - 1]) + [Not(old(subexpressions[|subexpressions| - 1]))]
    {
      var n := |subexpressions| - 1;
      subexpressions := subexpressions[..n] + [Not(subexpressions[n])];
    }

    method OnLogical(op: Operator)
      requires |subexpressions| >= 2
      modifies this`subexpressions
      ensures var n := old(|subexpressions|);
        subexpressions == old(subexpressions)[..n - 2] + [Binary(op, old(subexpressions)[n - 2], old(subexpressions)[n - 1])]
    {
      var n := |subexpressions|;
      var right := subexpressions[n - 1];
      subexpressions := subexpressions[..n - 1];
      subexpressions := subexpressions[..n - 2] + [Binary(op, subexpressions[n - 2], right)];
    }

    // -------------------------------------------------------------------------------------------
    // Parsing
    // -------------------------------------------------------------------------------------------

    /** The relation sign, recorded in the pending fields. */
    method ScanRelationAt(start: nat) returns (found: bool, next: nat)
      requires start <= |text|
      requires comparison.None? && customRelation == ""
      modifies this`comparison, this`customRelation
      ensures found == ScanRelation(text[start..]).Some?
      ensures !found ==> comparison.None? && customRelation == ""
      ensures found ==> start < next <= |text| && next == start + ScanRelation(text[start..]).value.1
      ensures found ==>
        if ScanRelation(text[start..]).value.0.Custom?
        then comparison.None? && customRelation == ScanRelation(text[start..]).value.0.word && customRelation != ""
        else comparison == Some(ScanRelation(text[start..]).value.0) && customRelation == ""
    {
      hide Keyword, WordRun;
      found, next := ScanKeyword(start, "=");
      if found { comparison := Some(Equal); return; }
      found, next := ScanKeyword(start, "!=");
      if found { comparison := Some(NotEqual); return; }
      found, next := ScanKeyword(start, ">");
      if found { comparison := Some(Greater); return; }
      found, next := ScanKeyword(start, "<");
      if found { comparison := Some(Less); return; }
      found, next := ScanKeyword(start, ">=");
      if found { comparison := Some(GreaterOrEqual); return; }
      found, next := ScanKeyword(start, "<=");
      if found { comparison := Some(LessOrEqual); return; }
      next := ScanWord(start);
      assert text[start..][..next - start] == text[start..next];
      if next != start {
        customRelation := text[start..next];
        found := true;
      }
    }

    /** `parse_relation`. */
    method ParseRelationAt(start: nat) returns (ok: bool, p: nat)
      requires start <= |text|
      requires attributeName.Some? && operand.None? && comparison.None? && customRelation == ""
      modifies this
      ensures ok == ParseRelation(text[start..], old(attributeName.value)).Ok?
      ensures ok ==> start <= p <= |text| && text[p..] == ParseRelation(text[start..], old(attributeName.value)).rest
      ensures ok ==> Idle()
      ensures ok ==> subexpressions == old(subexpressions) + [ParseRelation(text[start..], old(attributeName.value)).filter]
    {
      hide ScanRelation, ParseOperand, Trim;
      p := start;
      var found, next := ScanRelationAt(start);
      if found {
        assert text[start..][next - start..] == text[next..];
        next := TrimSpacesLeft(next);
        var value;
        ok, value, p := ParseOperandAt(next);
        if !ok {
          return;
        }
        operand := Some(value);
      }
      OnRelationComplete();
      ok := true;
    }

    /** The attribute name behind an opening percent sign, and the place behind the closing sign. */
    method ParseAttributeAt(start: nat) returns (ok: bool, p: nat)
      requires start <= |text|
      modifies this`attributeName
      ensures ok == ParseAttribute(text[start..]).Some?
      ensures ok ==> start < p <= |text| && text[p..] == ParseAttribute(text[start..]).value.1
      ensures ok ==> attributeName == Some(ParseAttribute(text[start..]).value.0)
    {
      hide Trim, WordRun;
      ok := false;
      var name := TrimSpacesLeft(start);
      p := ScanWord(name);
      assert text[name..][p - name..] == text[p..] && text[name..][..p - name] == text[name..p];
      if p == |text| || p == name {
        TrimStep(text, |text|);
        return;
      }
      attributeName := Some(text[name..p]);
      p := TrimSpacesLeft(p);
      if p == |text| || text[p] != '%' {
        return;
      }
      assert text[p..][1..] == text[p + 1..];
      p := TrimSpacesLeft(p + 1);
      ok := true;
    }

    lemma SubStep(p: nat, negated: bool, present: bool, depth: nat)
      requires p < |text|
      ensures text[p] == '%' ==> ParseSub(text[p..], negated, present, depth) == ParseAttributeSub(text[p + 1..], negated, present)
      ensures text[p] == '!' ==> ParseSub(text[p..], negated, present, depth) == ParseSub(Trim(text[p + 1..]), !negated, true, depth)
      ensures text[p] == '(' && !Keyword(text[p..], "not") ==>
        ParseSub(text[p..], negated, present, depth) == Negated(ParseNested(text[p + 1..], depth + 1), negated)
      ensures text[p] != '%' && text[p] != '!' && Keyword(text[p..], "not") ==>
        p + 3 < |text| && ParseSub(text[p..], negated, present, depth) == ParseSub(Trim(text[p + 3..]), !negated, true, depth)
      ensures text[p] != '%' && text[p] != '!' && text[p] != '(' && !Keyword(text[p..], "not") ==>
        ParseSub(text[p..], negated, present, depth) == Fail
    {
      hide ParseAttributeSub, ParseNested, Trim, Negated;
      var s := text[p..];
      assert s[0] == text[p] && s[1..] == text[p + 1..];
      if Keyword(s, "not") {
        assert s[3..] == text[p + 3..];
      }
    }

    /** `parse_subexpression`: on success exactly one filter is pushed, the one the text stands for. */
    method ParseSubexpression(start: nat, depth: nat) returns (ok: bool, p: nat)
      requires start < |text| && Idle()
      modifies this
      ensures ok == ParseSub(text[start..], false, false, depth).Ok?
      ensures ok ==> start < p <= |text| && text[p..] == ParseSub(text[start..], false, false, depth).rest
      ensures ok ==> Idle()
      ensures ok ==> subexpressions == old(subexpressions) + [ParseSub(text[start..], false, false, depth).filter]
      decreases |text| - start, 0
    {
      hide ParseSub, ParseAttributeSub, ParseNested, Trim, Keyword, ParseAttribute, ParseRelation;
      var negated, present := false, false;
      p := start;
      while p < |text|
        invariant start <= p <= |text| && Idle() && subexpressions == old(subexpressions)
        invariant p == start ==> !negated && !present
        invariant ParseSub(text[p..], negated, present, depth) == ParseSub(text[start..], false, false, depth)
        decreases |text| - p
      {
        SubStep(p, negated, present, depth);
        var word, next := ScanKeyword(p, "not");
        if text[p] == '%' {
          ok, p := ParseAttributeSubAt(p + 1, negated, present);
          return;
        } else if text[p] == '!' {
          negated, present := !negated, true;
          p := TrimSpacesLeft(p + 1);
        } else if word {
          negated, present := !negated, true;
          p := TrimSpacesLeft(next);
        } else if text[p] == '(' {
          ok, p := ParseNestedAt(p + 1, depth + 1);
          if ok && negated {
            OnNegation();
          }
          return;
        } else {
          return false, p;
        }
      }
      NothingToNegate(negated, present, depth);
      ok := false;
    }

    static lemma NothingToNegate(negated: bool, present: bool, depth: nat)
      ensures ParseSub("", negated, present, depth) == Fail
    {
    }

    method ParseAttributeSubAt(start: nat, negated: bool, present: bool) returns (ok: bool, p: nat)
      requires start <= |text| && Idle()
      modifies this
      ensures ok == ParseAttributeSub(text[start..], negated, present).Ok?
      ensures ok ==> start < p <= |text| && text[p..] == ParseAttributeSub(text[start..], negated, present).rest
      ensures ok ==> Idle()
      ensures ok ==> subexpressions == old(subexpressions) + [ParseAttributeSub(text[start..], negated, present).filter]
    {
      hide ParseAttribute, ParseRelation;
      ok, p := ParseAttributeAt(start);
      if !ok {
        return;
      }
      if present {
        OnRelationComplete();
      } else {
        ok, p := ParseRelationAt(p);
        if !ok {
          return;
        }
      }
      if negated {
        OnNegation();
      }
    }

    method ParseNestedAt(start: nat, depth: nat) returns (ok: bool, p: nat)
      requires start <= |text| && Idle() && depth > 0
      modifies this
      ensures ok == ParseNested(text[start..], depth).Ok?
      ensures ok ==> start <= p <= |text| && text[p..] == ParseNested(text[start..], depth).rest
      ensures ok ==> Idle()
      ensures ok ==> subexpressions == old(subexpressions) + [ParseNested(text[start..], depth).filter]
      decreases |text| - start, 2
    {
      hide ParseChain, Trim;
      p := TrimSpacesLeft(start);
      if p == |text| {
        return false, p;
      }
      ok, p := ParseChainAt(p, depth);
    }

    lemma ContinueStep(p: nat, depth: nat, f: Filter)
      requires p <= |text|
      ensures p == |text| ==> Continue(text[p..], depth, f) == if depth > 0 then Fail else Ok("", f)
      ensures p < |text| && text[p] == ')' ==>
        Continue(text[p..], depth, f)
        == if depth == 0 || (p + 1 == |text| && depth > 1) then Fail else Ok(text[p + 1..], f)
      ensures p < |text| && text[p] != ')' ==>
        var op := ScanOperator(text[p..]);
        if op.None? then Continue(text[p..], depth, f) == Fail
        else
          var q := Trim(text[p + op.value.1..]);
          Continue(text[p..], depth, f) == if q == "" then Fail else ParseChain(q, depth, Some((f, op.value.0)))
    {
      hide ScanOperator, ParseChain, Trim;
      if p < |text| {
        assert text[p..][0] == text[p] && text[p..][1..] == text[p + 1..];
        var op := ScanOperator(text[p..]);
        if op.Some? {
          assert text[p..][op.value.1..] == text[p + op.value.1..];
        }
      }
    }

    method ScanOperatorAt(p: nat) returns (op: Option<Operator>, next: nat)
      requires p < |text|
      ensures op.Some? == ScanOperator(text[p..]).Some?
      ensures op.Some? ==> op.value == ScanOperator(text[p..]).value.0 && p < next <= |text|
      ensures op.Some? ==> next == p + ScanOperator(text[p..]).value.1
    {
      hide Keyword;
      assert text[p..][0] == text[p];
      var andWord, afterAnd := ScanKeyword(p, "and");
      var orWord, afterOr := ScanKeyword(p, "or");
      if text[p] == '&' {
        op, next := Some(And), p + 1;
      } else if andWord {
        op, next := Some(And), afterAnd;
      } else if text[p] == '|' {
        op, next := Some(Or), p + 1;
      } else if orWord {
        op, next := Some(Or), afterOr;
      } else {
        op, next := None, p;
      }
    }

    /**
     The loop of `parse`, from the first subexpression on: the filters of a chain are folded from the left into one,
     which is pushed on what the stack held before.
     */
    method ParseChainAt(start: nat, depth: nat) returns (ok: bool, p: nat)
      requires start < |text| && Idle()
      modifies this
      ensures ok == ParseChain(text[start..], depth, None).Ok?
      ensures ok ==> start <= p <= |text| && text[p..] == ParseChain(text[start..], depth, None).rest
      ensures ok ==> Idle()
      ensures ok ==> subexpressions == old(subexpressions) + [ParseChain(text[start..], depth, None).filter]
      decreases |text| - start, 1
    {
      hide ParseSub, Continue, ScanOperator, Trim;
      var op: Option<Operator> := None;
      ghost var pending: Option<(Filter, Operator)> := None;
      ghost var base := subexpressions;
      ghost var whole := ParseChain(text[start..], depth, None);
      p := start;
      while true
        invariant start <= p < |text| && Idle()
        invariant op.Some? <==> pending.Some?
        invariant op.Some? ==> op.value == pending.value.1
        invariant subexpressions == base + if pending.Some? then [pending.value.0] else []
        invariant ParseChain(text[p..], depth, pending) == whole
        decreases |text| - p
      {
        ghost var f := ParseSub(text[p..], false, false, depth);
        ok, p := ParseSubexpression(p, depth);
        if !ok {
          return;
        }
        if op.Some? {
          OnLogical(op.value);
        }
        ghost var g := Combined(pending, f.filter);
        assert subexpressions == base + [g];
        p := TrimSpacesLeft(p);
        ContinueStep(p, depth, g);
        if p == |text| {
          ok := depth == 0;
          return;
        }
        if text[p] == ')' {
          ok := depth != 0 && (p + 1 < |text| || depth <= 1);
          p := p + 1;
          return;
        }
        var next;
        op, next := ScanOperatorAt(p);
        if op.None? {
          return false, p;
        }
        p := TrimSpacesLeft(next);
        if p == |text| {
          return false, p;
        }
        pending := Some((g, op.value));
      }
    }

    /** `parse_filter` with `get_filter`: the whole text is read, and the stack ends with at most one filter. */
    method Run() returns (r: Outcome)
      requires Idle() && subexpressions == []
      modifies this
      ensures r == ParseFilter(text)
      ensures r.HasFilter? ==> subexpressions == [r.filter]
      ensures r.NoFilter? ==> subexpressions == []
    {
      hide ParseChain, Trim;
      assert text[0..] == text;
      var p := TrimSpacesLeft(0);
      if p == |text| {
        return NoFilter;
      }
      var ok;
      ok, p := ParseChainAt(p, 0);
      r := if ok then HasFilter(subexpressions[|subexpressions| - 1]) else Error;
    }
  }
}
