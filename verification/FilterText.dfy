/**
 The filter language (src/setup/filter_parser.cpp, with the character scanning of src/setup/parser_utils.cpp) as
 functions of the text that is left to read. Escape sequences inside quoted operands are kept as they are written.
 */
module FilterText {
  import opened Wrappers

  // ---------------------------------------------------------------------------------------------
  // Scanning
  // ---------------------------------------------------------------------------------------------

  predicate IsSpace(c: char)
  {
    c == ' ' || c == '\t' || c == '\n' || c == '\r' || c == 11 as char || c == 12 as char
  }

  predicate IsWordChar(c: char)
  {
    '0' <= c <= '9' || 'a' <= c <= 'z' || 'A' <= c <= 'Z' || c == '_'
  }

  predicate IsOperandChar(c: char)
  {
    IsWordChar(c) || c == '-' || c == '+' || c == '.'
  }

  /** `trim_spaces_left`. */
  function Trim(s: string): (r: string)
    ensures |r| <= |s|
    ensures r != "" ==> !IsSpace(r[0])
  {
    if s != "" && IsSpace(s[0]) then Trim(s[1..]) else s
  }

  /** Length of the longest prefix of word characters. */
  function WordRun(s: string): (n: nat)
    ensures n <= |s|
    ensures n < |s| ==> !IsWordChar(s[n])
  {
    if s != "" && IsWordChar(s[0]) then 1 + WordRun(s[1..]) else 0
  }

  function OperandRun(s: string): (n: nat)
    ensures n <= |s|
    ensures n < |s| ==> !IsOperandChar(s[n])
  {
    if s != "" && IsOperandChar(s[0]) then 1 + OperandRun(s[1..]) else 0
  }

  /** `scan_keyword`: a keyword counts only with white space behind it. */
  predicate Keyword(s: string, word: string)
  {
    |word| < |s| && s[..|word|] == word && IsSpace(s[|word|])
  }

  /** Length of the text up to the closing quote, where a backslash protects the next character. */
  function QuotedRun(s: string): (n: Option<nat>)
    ensures n.Some? ==> n.value < |s| && s[n.value] == '"'
  {
    if s == "" then None
    else if s[0] == '"' then Some(0)
    else if s[0] == '\\' then
      if |s| == 1 then None
      else
        var n := QuotedRun(s[2..]);
        if n.Some? then Some(n.value + 2) else None
    else
      var n := QuotedRun(s[1..]);
      if n.Some? then Some(n.value + 1) else None
  }

  // ---------------------------------------------------------------------------------------------
  // Filters
  // ---------------------------------------------------------------------------------------------

  datatype Relation = Equal | NotEqual | Greater | Less | GreaterOrEqual | LessOrEqual | Custom(word: string)

  datatype Operator = And | Or

  /** The filters the parser builds; atoms are made by the filter factories. */
  datatype Filter =
    | Exists(name: string)
    | Compare(name: string, relation: Relation, operand: string)
    | Not(inner: Filter)
    | Binary(op: Operator, left: Filter, right: Filter)

  /** Truth value of a filter, given that of its atoms on a record. */
  predicate Eval(f: Filter, record: Filter -> bool)
  {
    match f
    case Exists(_) => record(f)
    case Compare(_, _, _) => record(f)
    case Not(inner) => !Eval(inner, record)
    case Binary(op, left, right) =>
      if op.And? then Eval(left, record) && Eval(right, record) else Eval(left, record) || Eval(right, record)
  }

  // ---------------------------------------------------------------------------------------------
  // Parsing
  // ---------------------------------------------------------------------------------------------

  /** A filter and the text left after it, or a parse error. */
  datatype Parsed = Ok(rest: string, filter: Filter) | Fail

  datatype Operand = Operand(text: string, rest: string) | NoOperand

  function ParseOperand(s: string): (r: Operand)
    ensures r.Operand? ==> |r.rest| < |s|
  {
    if s == "" then NoOperand
    else if s[0] == '"' then
      var n := QuotedRun(s[1..]);
      if n.Some? then Operand(s[1..][..n.value], s[n.value + 2..]) else NoOperand
    else
      var n := 1 + OperandRun(s[1..]);
      Operand(s[..n], s[n..])
  }

  /** The relation sign at the start of the text and its length, if any. */
  function ScanRelation(s: string): (r: Option<(Relation, nat)>)
    ensures r.Some? ==> 0 < r.value.1 <= |s|
  {
    if Keyword(s, "=") then Some((Equal, 1))
    else if Keyword(s, "!=") then Some((NotEqual, 2))
    else if Keyword(s, ">") then Some((Greater, 1))
    else if Keyword(s, "<") then Some((Less, 1))
    else if Keyword(s, ">=") then Some((GreaterOrEqual, 2))
    else if Keyword(s, "<=") then Some((LessOrEqual, 2))
    else
      var n := WordRun(s);
      if n == 0 then None else Some((Custom(s[..n]), n))
  }

  function ParseRelation(s: string, name: string): (r: Parsed)
    ensures r.Ok? ==> |r.rest| <= |s|
  {
    var relation := ScanRelation(s);
    if relation.None? then Ok(s, Exists(name))
    else
      var operand := ParseOperand(Trim(s[relation.value.1..]));
      if operand.NoOperand? then Fail else Ok(operand.rest, Compare(name, relation.value.0, operand.text))
  }

  /** The attribute placeholder behind an opening percent sign: its name and the text behind the closing sign. */
  function ParseAttribute(s: string): (r: Option<(string, string)>)
    ensures r.Some? ==> |r.value.1| < |s|
  {
    var start := Trim(s);
    var n := WordRun(start);
    var q := Trim(start[n..]);
    if n == 0 || q == "" || q[0] != '%' then None else Some((start[..n], Trim(q[1..])))
  }

  /** An attribute behind an opening percent sign, with its relation unless negation signs precede it. */
  function ParseAttributeSub(s: string, negated: bool, present: bool): (r: Parsed)
    ensures r.Ok? ==> |r.rest| < |s|
  {
    var attribute := ParseAttribute(s);
    if attribute.None? then Fail
    else
      var (name, rest) := attribute.value;
      Negated(if present then Ok(rest, Exists(name)) else ParseRelation(rest, name), negated)
  }

  function Negated(r: Parsed, negated: bool): (p: Parsed)
    ensures p.Ok? <==> r.Ok?
    ensures p.Ok? ==> p.rest == r.rest
  {
    if r.Ok? && negated then Ok(r.rest, Not(r.filter)) else r
  }

  /** One subexpression; `present` says that negation signs precede it, `negated` that their number is odd. */
  function ParseSub(s: string, negated: bool, present: bool, depth: nat): (r: Parsed)
    ensures r.Ok? ==> |r.rest| < |s|
    decreases |s|, 0
  {
    if s == "" then Fail
    else if s[0] == '%' then ParseAttributeSub(s[1..], negated, present)
    else if s[0] == '!' then ParseSub(Trim(s[1..]), !negated, true, depth)
    else if Keyword(s, "not") then ParseSub(Trim(s[3..]), !negated, true, depth)
    else if s[0] == '(' then Negated(ParseNested(s[1..], depth + 1), negated)
    else Fail
  }

  /** The text inside parentheses. */
  function ParseNested(s: string, depth: nat): (r: Parsed)
    requires depth > 0
    ensures r.Ok? ==> |r.rest| <= |s|
    decreases |s|, 2
  {
    var p := Trim(s);
    if p == "" then Fail else ParseChain(p, depth, None)
  }

  /** The operator at the start of the text and its length, if any. */
  function ScanOperator(s: string): (r: Option<(Operator, nat)>)
    requires s != ""
    ensures r.Some? ==> 0 < r.value.1 <= |s|
  {
    if s[0] == '&' then Some((And, 1))
    else if Keyword(s, "and") then Some((And, 3))
    else if s[0] == '|' then Some((Or, 1))
    else if Keyword(s, "or") then Some((Or, 2))
    else None
  }

  function Combined(pending: Option<(Filter, Operator)>, f: Filter): (r: Filter)
  {
    if pending.None? then f else Binary(pending.value.1, pending.value.0, f)
  }

  /** Subexpressions joined by operators, from a subexpression on. */
  function ParseChain(s: string, depth: nat, pending: Option<(Filter, Operator)>): (r: Parsed)
    requires s != ""
    ensures r.Ok? ==> |r.rest| <= |s|
    ensures r.Ok? && depth == 0 ==> r.rest == ""
    decreases |s|, 1
  {
    var sub := ParseSub(s, false, false, depth);
    if sub.Fail? then Fail else Continue(Trim(sub.rest), depth, Combined(pending, sub.filter))
  }

  /** What follows a subexpression: the end, a closing parenthesis, or an operator. */
  function Continue(p: string, depth: nat, f: Filter): (r: Parsed)
    ensures r.Ok? ==> |r.rest| <= |p|
    ensures r.Ok? && depth == 0 ==> r.rest == ""
    decreases |p|, 2
  {
    if p == "" then if depth > 0 then Fail else Ok("", f)
    else if p[0] == ')' then
      if depth == 0 || (|p| == 1 && depth > 1) then Fail else Ok(p[1..], f)
    else
      var op := ScanOperator(p);
      if op.None? then Fail
      else
        var q := Trim(p[op.value.1..]);
        if q == "" then Fail else ParseChain(q, depth, Some((f, op.value.0)))
  }

  datatype Outcome = NoFilter | HasFilter(filter: Filter) | Error

  /** `parse_filter`: empty text gives the empty filter. */
  function ParseFilter(s: string): (r: Outcome)
  {
    var p := Trim(s);
    if p == "" then NoFilter
    else
      var r := ParseChain(p, 0, None);
      if r.Ok? then HasFilter(r.filter) else Error
  }
}
