/**
 Format strings (src/format_parser.cpp): literal text with doubled percent signs, and positional arguments written as a
 number between percent signs.
 */
module FormatText {
  import opened Wrappers
  import opened Digits
  import opened TextAt

  /** What a format string says: literal characters and arguments, numbered from zero. */
  datatype Part = Chars(text: string) | Argument(index: nat)

  datatype Error = Syntax | TooLarge

  datatype Read = Parts(parts: seq<Part>) | Failed(error: Error, position: nat)

  /** The literal collected so far, as a part unless it is empty. */
  function Flushed(literal: string): (parts: seq<Part>)
  {
    if literal == "" then [] else [Chars(literal)]
  }

  function Prefixed(front: seq<Part>, r: Read): (p: Read)
  {
    if r.Parts? then Parts(front + r.parts) else r
  }

  /** The parts of the text from `position` on, behind a literal already collected. */
  function ReadFrom(s: string, position: nat, literal: string): (r: Read)
    requires position <= |s|
    decreases |s| - position
  {
    if position == |s| then Parts(Flushed(literal))
    else if s[position] != '%' then ReadFrom(s, position + 1, literal + [s[position]])
    else if position + 1 == |s| then Parts(Flushed(literal + "%"))
    else if s[position + 1] == '%' then ReadFrom(s, position + 2, literal + "%")
    else
      var argument := ReadArgument(s, position);
      if argument.Bad? then Failed(argument.error, position)
      else Prefixed(Flushed(literal) + [Argument(argument.index)], ReadFrom(s, argument.next, ""))
  }

  datatype ArgumentRead = Found(index: nat, next: nat) | Bad(error: Error)

  /** The positional argument whose opening percent sign is at `p`. */
  function ReadArgument(s: string, p: nat): (r: ArgumentRead)
    requires p + 1 < |s|
    ensures r.Found? ==> p < r.next <= |s|
  {
    if !IsDigit(s[p + 1]) || s[p + 1] == '0' then Bad(Syntax)
    else
      var n := DigitRun(s[p + 1..]);
      var digits := s[p + 1..][..n];
      var q := p + 1 + n;
      if Value(digits) == 0 || Value(digits) >= WORD || q == |s| || s[q] != '%' then Bad(Syntax)
      else if Value(digits) > 1000 then Bad(TooLarge)
      else Found(Value(digits) - 1, q + 1)
  }

  // ---------------------------------------------------------------------------------------------
  // Writing formats
  // ---------------------------------------------------------------------------------------------

  function Escaped(text: string): (s: string)
  {
    if text == "" then "" else (if text[0] == '%' then "%%" else [text[0]]) + Escaped(text[1..])
  }

  function WritePart(part: Part): (s: string)
  {
    match part
    case Chars(text) => Escaped(text)
    case Argument(index) => "%" + (Decimal(index + 1) + "%")
  }

  function Write(parts: seq<Part>): (s: string)
  {
    if parts == [] then "" else WritePart(parts[0]) + Write(parts[1..])
  }

  /** Adjacent literals joined, behind a literal already collected. */
  function JoinedAfter(literal: string, parts: seq<Part>): (r: seq<Part>)
    decreases |parts|
  {
    if parts == [] then Flushed(literal)
    else match parts[0]
      case Chars(text) => JoinedAfter(literal + text, parts[1..])
      case Argument(_) => Flushed(literal) + [parts[0]] + JoinedAfter("", parts[1..])
  }

  function Joined(parts: seq<Part>): (r: seq<Part>)
  {
    JoinedAfter("", parts)
  }

  /** The formatted text, given the text of each argument. */
  function Format(parts: seq<Part>, arguments: nat -> string): (s: string)
  {
    if parts == [] then ""
    else (if parts[0].Chars? then parts[0].text else arguments(parts[0].index)) + Format(parts[1..], arguments)
  }

  /** No literal is empty and none follows another. */
  predicate Normal(parts: seq<Part>)
  {
    && (forall i :: 0 <= i < |parts| && parts[i].Chars? ==> parts[i].text != "")
    && (forall i :: 0 <= i < |parts| - 1 && parts[i].Chars? ==> parts[i + 1].Argument?)
  }

  lemma {:induction false} FormatAppends(a: seq<Part>, b: seq<Part>, arguments: nat -> string)
    ensures Format(a + b, arguments) == Format(a, arguments) + Format(b, arguments)
    decreases |a|
  {
    if a == [] {
      assert a + b == b;
    } else {
      FormatAppends(a[1..], b, arguments);
      assert (a + b)[1..] == a[1..] + b;
    }
  }

  lemma FormatSmall(literal: string, argument: Part, arguments: nat -> string)
    requires argument.Argument?
    ensures Format(Flushed(literal), arguments) == literal
    ensures Format([argument], arguments) == arguments(argument.index)
  {
  }

  lemma FormatHead(parts: seq<Part>, arguments: nat -> string)
    requires parts != []
    ensures Format(parts, arguments)
         == (if parts[0].Chars? then parts[0].text else arguments(parts[0].index)) + Format(parts[1..], arguments)
  {
  }

  /** Joining literals gives a normal sequence that formats to the same text. */
  lemma {:induction false} JoinedFormatsSame(literal: string, parts: seq<Part>, arguments: nat -> string)
    ensures Format(JoinedAfter(literal, parts), arguments) == literal + Format(parts, arguments)
    ensures Normal(JoinedAfter(literal, parts))
    decreases |parts|
  {
    hide Format, Normal, Flushed;
    if parts == [] {
      FormatSmall(literal, Argument(0), arguments);
      NormalFlushed(literal, arguments);
      assert literal + "" == literal;
    } else if parts[0].Chars? {
      JoinedFormatsSame(literal + parts[0].text, parts[1..], arguments);
      FormatHead(parts, arguments);
    } else {
      var rest := JoinedAfter("", parts[1..]);
      JoinedFormatsSame("", parts[1..], arguments);
      FormatHead(parts, arguments);
      FormatAppends(Flushed(literal) + [parts[0]], rest, arguments);
      FormatAppends(Flushed(literal), [parts[0]], arguments);
      FormatSmall(literal, parts[0], arguments);
      NormalAppends(literal, parts[0], rest);
    }
  }

  lemma NormalFlushed(literal: string, arguments: nat -> string)
    ensures Normal(Flushed(literal)) && Format([], arguments) == ""
  {
  }

  lemma NormalAppends(literal: string, argument: Part, rest: seq<Part>)
    requires argument.Argument? && Normal(rest)
    ensures Normal(Flushed(literal) + [argument] + rest)
  {
  }

  // ---------------------------------------------------------------------------------------------
  // Reading what was written
  // ---------------------------------------------------------------------------------------------

  lemma {:induction false} EscapedReads(s: string, p: nat, text: string, literal: string)
    requires At(s, p, Escaped(text))
    ensures ReadFrom(s, p, literal) == ReadFrom(s, p + |Escaped(text)|, literal + text)
    decreases |text|
  {
    hide ReadFrom, At;
    if text == "" {
      assert literal + text == literal;
    } else {
      var c, rest := text[0], text[1..];
      var first := if c == '%' then "%%" else [c];
      AtSplits(s, p, first, Escaped(rest));
      AtIndex(s, p, first, 0);
      if c == '%' {
        AtIndex(s, p, first, 1);
      }
      OneCharReads(s, p, c, literal);
      EscapedReads(s, p + |first|, rest, literal + [c]);
      assert literal + [c] + rest == literal + text;
    }
  }

  lemma OneCharReads(s: string, p: nat, c: char, literal: string)
    requires p < |s| && s[p] == c && (c == '%' ==> p + 1 < |s| && s[p + 1] == '%')
    ensures ReadFrom(s, p, literal) == ReadFrom(s, if c == '%' then p + 2 else p + 1, literal + [c])
  {
    hide ReadArgument;
  }

  /** A positional argument up to 999 is read back. */
  lemma ArgumentReads(s: string, p: nat, index: nat, literal: string)
    requires At(s, p, WritePart(Argument(index))) && index < 1000
    ensures var q := p + |WritePart(Argument(index))|;
      ReadFrom(s, p, literal) == Prefixed(Flushed(literal) + [Argument(index)], ReadFrom(s, q, ""))
  {
    hide Value, Decimal, DigitRun, At;
    var digits := Decimal(index + 1);
    AtSplits(s, p, "%", digits + "%");
    AtSplits(s, p + 1, digits, "%");
    AtIndex(s, p, "%", 0);
    AtIndex(s, p + 1, digits, 0);
    AtIndex(s, p + 1 + |digits|, "%", 0);
    DecimalStarts(index + 1);
    DigitsAt(s, p + 1, digits);
  }

  lemma DigitsAt(s: string, p: nat, digits: string)
    requires At(s, p, digits) && AllDigits(digits) && p + |digits| < |s| && !IsDigit(s[p + |digits|])
    ensures s[p..][..|digits|] == digits && DigitRun(s[p..]) == |digits|
  {
    assert s[p..][..|digits|] == s[p..p + |digits|];
    assert s[p..][|digits|] == s[p + |digits|];
    DigitRunIs(s[p..], |digits|);
  }

  lemma {:induction false} DecimalStarts(n: nat)
    requires n > 0
    ensures Decimal(n)[0] != '0'
    decreases n
  {
    if n >= 10 {
      DecimalStarts(n / 10);
    }
  }

  predicate ArgumentsFit(parts: seq<Part>)
  {
    forall i :: 0 <= i < |parts| && parts[i].Argument? ==> parts[i].index < 1000
  }

  lemma {:induction false} PartsRead(s: string, p: nat, parts: seq<Part>, literal: string)
    requires At(s, p, Write(parts)) && p + |Write(parts)| == |s| && ArgumentsFit(parts)
    ensures ReadFrom(s, p, literal) == Parts(JoinedAfter(literal, parts))
    decreases |parts|
  {
    hide WritePart, At;
    if parts == [] {
      EndReads(s, literal);
    } else {
      var first, rest := WritePart(parts[0]), parts[1..];
      AtSplits(s, p, first, Write(rest));
      match parts[0]
      case Chars(text) =>
        assert first == Escaped(text) by {
          WriteChars(text);
        }
        hide ReadFrom;
        EscapedReads(s, p, text, literal);
        PartsRead(s, p + |first|, rest, literal + text);
      case Argument(index) =>
        hide ReadFrom;
        ArgumentReads(s, p, index, literal);
        PartsRead(s, p + |first|, rest, "");
    }
  }

  lemma WriteChars(text: string)
    ensures WritePart(Chars(text)) == Escaped(text)
  {
  }

  lemma EndReads(s: string, literal: string)
    ensures ReadFrom(s, |s|, literal) == Parts(Flushed(literal))
  {
  }

  /** Writing literals and arguments and reading them back gives them with adjacent literals joined. */
  lemma WriteThenRead(parts: seq<Part>)
    requires ArgumentsFit(parts)
    ensures ReadFrom(Write(parts), 0, "") == Parts(Joined(parts))
  {
    hide ReadFrom, Write;
    var s := Write(parts);
    assert s[0..|s|] == s;
    PartsRead(s, 0, parts, "");
  }
}
