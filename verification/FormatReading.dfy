/**
 Which texts are format strings, and where the others are refused: the converse of reading back what was written. Formats
 are read exactly where they are written forms, up to a single percent sign at the end.
 */
module FormatReading {
  import opened Wrappers
  import opened Digits
  import opened TextAt
  import opened FormatText

  // ---------------------------------------------------------------------------------------------
  // Positional arguments
  // ---------------------------------------------------------------------------------------------

  lemma {:induction false} ValuePositive(d: string)
    requires AllDigits(d) && d != "" && d[0] != '0'
    ensures Value(d) > 0
    decreases |d|
  {
    if |d| > 1 {
      ValuePositive(d[..|d| - 1]);
    }
  }

  /** Digits that do not begin with a zero are the decimal form of their value. */
  lemma {:induction false} DecimalOfValue(d: string)
    requires AllDigits(d) && d != "" && d[0] != '0'
    ensures Decimal(Value(d)) == d
    decreases |d|
  {
    var n := |d| - 1;
    var front, last := d[..n], d[n];
    assert d == front + [last];
    assert DigitChar(DigitValue(last)) == last;
    if n == 0 {
      EmptyValue();
      assert Value(d) == DigitValue(last);
    } else {
      ValuePositive(front);
      DecimalOfValue(front);
      assert Value(d) == 10 * Value(front) + DigitValue(last);
      assert Value(d) / 10 == Value(front) && Value(d) % 10 == DigitValue(last);
    }
  }

  /** A number between percent signs stands at `p`. */
  predicate NumberAt(s: string, p: nat, n: nat)
  {
    At(s, p, "%" + (Decimal(n) + "%"))
  }

  /** The digits that are scanned from a written number. */
  lemma NumberScans(s: string, p: nat, n: nat)
    requires n > 0 && NumberAt(s, p, n)
    ensures var w := |Decimal(n)|;
      && p + 1 + w < |s| && IsDigit(s[p + 1]) && s[p + 1] != '0' && s[p + 1 + w] == '%'
      && DigitRun(s[p + 1..]) == w && s[p + 1..][..w] == Decimal(n)
  {
    hide At, Decimal, DigitRun;
    var digits := Decimal(n);
    AtSplits(s, p, "%", digits + "%");
    AtSplits(s, p + 1, digits, "%");
    AtIndex(s, p + 1, digits, 0);
    AtIndex(s, p + 1 + |digits|, "%", 0);
    DecimalStarts(n);
    DigitsAt(s, p + 1, digits);
  }

  /** What is scanned as a number between percent signs is written so. */
  lemma ScannedIsNumber(s: string, p: nat)
    requires p + 1 < |s| && s[p] == '%' && IsDigit(s[p + 1]) && s[p + 1] != '0'
    ensures var w := DigitRun(s[p + 1..]);
      p + 1 + w < |s| && s[p + 1 + w] == '%' ==> w > 0 && NumberAt(s, p, Value(s[p + 1..][..w])) && w == |Decimal(Value(s[p + 1..][..w]))|
  {
    hide Value, Decimal;
    var w := DigitRun(s[p + 1..]);
    var digits := s[p + 1..][..w];
    assert s[p + 1..][0] == s[p + 1];
    assert w > 0 && digits[0] == s[p + 1];
    DecimalOfValue(digits);
    if p + 1 + w < |s| && s[p + 1 + w] == '%' {
      assert s[p..p + 2 + w] == "%" + (digits + "%");
    }
  }

  /** A positional argument is found exactly where its number, from 1 to 1000, stands between percent signs. */
  lemma ArgumentIff(s: string, p: nat, index: nat, next: nat)
    requires p + 1 < |s| && s[p] == '%'
    ensures ReadArgument(s, p) == Found(index, next) <==>
      index < 1000 && NumberAt(s, p, index + 1) && next == p + |Decimal(index + 1)| + 2
  {
    hide Value, Decimal, DigitRun, NumberAt;
    if IsDigit(s[p + 1]) && s[p + 1] != '0' {
      ScannedIsNumber(s, p);
    }
    if NumberAt(s, p, index + 1) {
      NumberScans(s, p, index + 1);
    }
  }

  /** It is refused as too large exactly where a larger 32-bit number stands there. */
  lemma TooLargeIff(s: string, p: nat)
    requires p + 1 < |s| && s[p] == '%'
    ensures ReadArgument(s, p) == Bad(TooLarge) <==> exists n :: 1000 < n < WORD && NumberAt(s, p, n)
  {
    hide Value, Decimal, DigitRun, NumberAt;
    if IsDigit(s[p + 1]) && s[p + 1] != '0' {
      ScannedIsNumber(s, p);
    }
    if n :| 1000 < n < WORD && NumberAt(s, p, n) {
      NumberScans(s, p, n);
    }
  }

  // ---------------------------------------------------------------------------------------------
  // What was read
  // ---------------------------------------------------------------------------------------------

  lemma {:induction false} EscapedAppends(a: string, b: string)
    ensures Escaped(a + b) == Escaped(a) + Escaped(b)
    decreases |a|
  {
    if a == "" {
      assert a + b == b;
    } else {
      assert (a + b)[1..] == a[1..] + b;
      EscapedAppends(a[1..], b);
    }
  }

  lemma EscapedOne(literal: string, c: char)
    ensures Escaped(literal + [c]) == Escaped(literal) + if c == '%' then "%%" else [c]
  {
    EscapedAppends(literal, [c]);
    assert Escaped([c]) == (if c == '%' then "%%" else [c]) + Escaped("");
  }

  lemma {:induction false} WriteAppends(a: seq<Part>, b: seq<Part>)
    ensures Write(a + b) == Write(a) + Write(b)
    decreases |a|
  {
    if a == [] {
      assert a + b == b;
    } else {
      assert (a + b)[1..] == a[1..] + b;
      WriteAppends(a[1..], b);
    }
  }

  lemma WriteFlushed(literal: string)
    ensures Write(Flushed(literal)) == Escaped(literal) && Normal(Flushed(literal)) && ArgumentsFit(Flushed(literal))
  {
    if literal != "" {
      assert Write([Chars(literal)]) == Escaped(literal) + Write([]);
    }
  }

  lemma WriteArgument(index: nat)
    ensures Write([Argument(index)]) == "%" + (Decimal(index + 1) + "%")
  {
    assert Write([Argument(index)]) == WritePart(Argument(index)) + Write([]);
  }

  lemma FitAppends(literal: string, index: nat, rest: seq<Part>)
    requires ArgumentsFit(rest) && index < 1000
    ensures ArgumentsFit(Flushed(literal) + [Argument(index)] + rest)
  {
  }

  /** A literal and an argument in front of other parts. */
  lemma WriteFront(literal: string, index: nat, rest: seq<Part>)
    requires Normal(rest) && ArgumentsFit(rest) && index < 1000
    ensures var parts := Flushed(literal) + [Argument(index)] + rest;
      && Normal(parts) && ArgumentsFit(parts)
      && Write(parts) == Escaped(literal) + ("%" + (Decimal(index + 1) + "%")) + Write(rest)
  {
    hide Decimal, Escaped, Write, Normal, ArgumentsFit, Flushed;
    WriteFlushed(literal);
    NormalAppends(literal, Argument(index), rest);
    FitAppends(literal, index, rest);
    WriteArgument(index);
    WriteAppends(Flushed(literal), [Argument(index)]);
    WriteAppends(Flushed(literal) + [Argument(index)], rest);
  }

  /** The text is the written form of the parts, or lacks the second of two percent signs at the end of a literal. */
  predicate WrittenAs(s: string, parts: seq<Part>)
  {
    s == Write(parts) || (parts != [] && parts[|parts| - 1].Chars? && s + "%" == Write(parts))
  }

  lemma WrittenBehind(literal: string, index: nat, t: string, rest: seq<Part>)
    requires Normal(rest) && ArgumentsFit(rest) && index < 1000 && WrittenAs(t, rest)
    ensures var parts := Flushed(literal) + [Argument(index)] + rest;
      && Normal(parts) && ArgumentsFit(parts)
      && WrittenAs(Escaped(literal) + ("%" + (Decimal(index + 1) + "%")) + t, parts)
  {
    hide Write, Escaped, Decimal, Normal;
    WriteFront(literal, index, rest);
    var front := Escaped(literal) + ("%" + (Decimal(index + 1) + "%"));
    assert (front + t) + "%" == front + (t + "%");
  }

  lemma NumberSlice(s: string, p: nat, n: nat)
    requires NumberAt(s, p, n)
    ensures var q := p + |Decimal(n)| + 2; q <= |s| && s[p..q] == "%" + (Decimal(n) + "%")
  {
    hide Decimal;
  }

  lemma Regrouped(a: string, b: string, c: string)
    ensures a + (b + c) == a + b + c
  {
  }

  lemma NothingInFront(a: string)
    ensures "" + a == a
  {
  }

  lemma Rejoined(a: string, s: string, p: nat, q: nat, r: nat)
    requires p <= q <= r <= |s|
    ensures a + s[p..q] + s[q..r] == a + s[p..r]
  {
    assert s[p..r] == s[p..q] + s[q..r];
  }

  lemma ArgumentWritten(s: string, p: nat, literal: string, index: nat, rest: seq<Part>)
    requires index < 1000 && NumberAt(s, p, index + 1) && Normal(rest) && ArgumentsFit(rest)
    requires var q := p + |Decimal(index + 1)| + 2; q <= |s| && WrittenAs(Escaped("") + s[q..|s|], rest)
    ensures var parts := Flushed(literal) + [Argument(index)] + rest;
      Normal(parts) && ArgumentsFit(parts) && WrittenAs(Escaped(literal) + s[p..|s|], parts)
  {
    hide Write, Normal, ArgumentsFit, WrittenAs, Decimal, NumberAt, Escaped;
    NoEscapes();
    NumberSlice(s, p, index + 1);
    var q := p + |Decimal(index + 1)| + 2;
    NothingInFront(s[q..|s|]);
    WrittenBehind(literal, index, s[q..|s|], rest);
    Rejoined(Escaped(literal), s, p, q, |s|);
  }

  /** Whatever is read is written so. */
  lemma {:induction false} ReadIsWritten(s: string, p: nat, literal: string)
    requires p <= |s| && ReadFrom(s, p, literal).Parts?
    ensures var parts := ReadFrom(s, p, literal).parts;
      Normal(parts) && ArgumentsFit(parts) && WrittenAs(Escaped(literal) + s[p..|s|], parts)
    decreases |s| - p
  {
    hide ReadArgument, Write, Escaped, Normal, ArgumentsFit, WrittenAs, Flushed, Decimal, NumberAt;
    if p == |s| {
      assert s[p..|s|] == "";
      ReadsToEnd(literal);
    } else if s[p] != '%' {
      ReadIsWritten(s, p + 1, literal + [s[p]]);
      EscapedOne(literal, s[p]);
      assert s[p..p + 1] == [s[p]];
      Rejoined(Escaped(literal), s, p, p + 1, |s|);
    } else if p + 1 == |s| {
      ReadsLonePercent(literal);
      assert s[p..|s|] == "%";
    } else if s[p + 1] == '%' {
      ReadIsWritten(s, p + 2, literal + "%");
      EscapedOne(literal, '%');
      assert s[p..p + 2] == "%%";
      Rejoined(Escaped(literal), s, p, p + 2, |s|);
    } else {
      var argument := ReadArgument(s, p);
      ReadIsWritten(s, argument.next, "");
      ArgumentIff(s, p, argument.index, argument.next);
      ArgumentWritten(s, p, literal, argument.index, ReadFrom(s, argument.next, "").parts);
    }
  }

  lemma NoEscapes()
    ensures Escaped("") == ""
  {
  }

  lemma ReadsToEnd(literal: string)
    ensures var parts := Flushed(literal); Normal(parts) && ArgumentsFit(parts) && WrittenAs(Escaped(literal) + "", parts)
  {
    WriteFlushed(literal);
    assert Escaped(literal) + "" == Escaped(literal);
  }

  lemma ReadsLonePercent(literal: string)
    ensures var parts := Flushed(literal + "%"); Normal(parts) && ArgumentsFit(parts) && WrittenAs(Escaped(literal) + "%", parts)
  {
    WriteFlushed(literal + "%");
    EscapedOne(literal, '%');
    assert Escaped(literal) + "%%" == Escaped(literal) + "%" + "%";
  }

  // ---------------------------------------------------------------------------------------------
  // What is read
  // ---------------------------------------------------------------------------------------------

  /** Parts that end in an argument, or no parts: no literal is under way behind them. */
  predicate Closed(parts: seq<Part>)
  {
    parts != [] ==> parts[|parts| - 1].Argument?
  }

  lemma PrefixedTwice(a: seq<Part>, b: seq<Part>, r: Read)
    ensures Prefixed(a, Prefixed(b, r)) == Prefixed(a + b, r) && Prefixed([], r) == r
  {
    if r.Parts? {
      assert a + (b + r.parts) == a + b + r.parts;
      assert [] + r.parts == r.parts;
    }
  }

  /** The first argument of closed parts, with the literal in front of it. */
  lemma FirstArgument(parts: seq<Part>) returns (literal: string, index: nat, rest: seq<Part>)
    requires parts != [] && Closed(parts) && Normal(parts) && ArgumentsFit(parts)
    ensures parts == Flushed(literal) + [Argument(index)] + rest && |rest| < |parts|
    ensures Closed(rest) && Normal(rest) && ArgumentsFit(rest) && index < 1000
  {
    if parts[0].Chars? {
      literal, index, rest := parts[0].text, parts[1].index, parts[2..];
      assert parts == [parts[0]] + [parts[1]] + rest;
    } else {
      literal, index, rest := "", parts[0].index, parts[1..];
      assert parts == [] + [parts[0]] + rest;
    }
  }

  lemma LiteralAndArgumentRead(s: string, p: nat, literal: string, index: nat)
    requires At(s, p, Escaped(literal) + WritePart(Argument(index))) && index < 1000
    ensures var q := p + |Escaped(literal)| + |WritePart(Argument(index))|;
      q <= |s| && ReadFrom(s, p, "") == Prefixed(Flushed(literal) + [Argument(index)], ReadFrom(s, q, ""))
  {
    hide ReadFrom, WritePart, Escaped, Flushed, Prefixed;
    AtSplits(s, p, Escaped(literal), WritePart(Argument(index)));
    EscapedReads(s, p, literal, "");
    assert "" + literal == literal;
    ArgumentReads(s, p + |Escaped(literal)|, index, literal);
  }

  /** The written form of closed parts is read as these parts, and reading goes on behind it. */
  lemma {:induction false} ClosedPartsRead(s: string, p: nat, parts: seq<Part>)
    requires Closed(parts) && Normal(parts) && ArgumentsFit(parts) && At(s, p, Write(parts))
    ensures ReadFrom(s, p, "") == Prefixed(parts, ReadFrom(s, p + |Write(parts)|, ""))
    decreases |parts|
  {
    hide ReadFrom, Normal, Closed, ArgumentsFit, Prefixed, Write, Flushed, Escaped, Decimal;
    assert p <= |s|;
    hide At;
    if parts == [] {
      NothingWritten();
      PrefixedTwice([], [], ReadFrom(s, p, ""));
    } else {
      var literal, index, rest := FirstArgument(parts);
      WriteFront(literal, index, rest);
      var first := Escaped(literal) + WritePart(Argument(index));
      AtSplits(s, p, first, Write(rest));
      LiteralAndArgumentRead(s, p, literal, index);
      ClosedPartsRead(s, p + |first|, rest);
      PrefixedTwice(Flushed(literal) + [Argument(index)], rest, ReadFrom(s, p + |Write(parts)|, ""));
    }
  }

  lemma NothingWritten()
    ensures Write([]) == ""
  {
  }

  /** Normal parts are closed parts and perhaps a literal. */
  lemma ClosedAndLiteral(parts: seq<Part>) returns (front: seq<Part>, literal: string)
    requires Normal(parts) && ArgumentsFit(parts)
    ensures parts == front + Flushed(literal) && Closed(front) && Normal(front) && ArgumentsFit(front)
    ensures literal != "" <==> parts != [] && parts[|parts| - 1].Chars?
    ensures Write(parts) == Write(front) + Escaped(literal)
  {
    hide Write;
    if parts != [] && parts[|parts| - 1].Chars? {
      var n := |parts| - 1;
      front, literal := parts[..n], parts[n].text;
    } else {
      front, literal := parts, "";
    }
    assert parts == front + Flushed(literal);
    WriteAppends(front, Flushed(literal));
    WriteFlushed(literal);
  }

  /** A text that begins with written parts is read as the closed ones, with the literal behind them under way. */
  lemma PartsReadOn(s: string, parts: seq<Part>, front: seq<Part>, literal: string)
    requires Write(parts) <= s && parts == front + Flushed(literal) && Write(parts) == Write(front) + Escaped(literal)
    requires Closed(front) && Normal(front) && ArgumentsFit(front)
    ensures ReadFrom(s, 0, "") == Prefixed(front, ReadFrom(s, |Write(parts)|, literal))
  {
    hide ReadFrom, Write, Normal, Closed, ArgumentsFit, Escaped;
    assert At(s, 0, Write(front) + Escaped(literal));
    AtSplits(s, 0, Write(front), Escaped(literal));
    ClosedPartsRead(s, 0, front);
    EscapedReads(s, |Write(front)|, literal, "");
    assert "" + literal == literal;
  }

  /** A percent sign that is missing at the end is missing from the literal there. */
  lemma LonePercentAt(s: string, front: string, literal: string)
    requires literal != "" && s + "%" == front + Escaped(literal)
    ensures var n := |literal| - 1;
      literal[n] == '%' && s == front + Escaped(literal[..n]) + "%" && literal == literal[..n] + "%"
  {
    hide Escaped;
    var n := |literal| - 1;
    var less, c := literal[..n], literal[n];
    assert literal == less + [c];
    EscapedOne(less, c);
    Regrouped(front, Escaped(less), if c == '%' then "%%" else [c]);
    EndsInPercent(s, front + Escaped(less), c);
  }

  lemma EndsInPercent(s: string, head: string, c: char)
    requires s + "%" == head + if c == '%' then "%%" else [c]
    ensures c == '%' && s == head + "%"
  {
    var w := s + "%";
    assert w[|w| - 1] == '%';
    assert s == w[..|w| - 1];
  }

  /** A text written as normal parts is read as these. */
  lemma WrittenIsRead(s: string, parts: seq<Part>)
    requires Normal(parts) && ArgumentsFit(parts) && WrittenAs(s, parts)
    ensures ReadFrom(s, 0, "") == Parts(parts)
  {
    hide Write, Normal, Closed, ArgumentsFit, Escaped;
    var front, literal := ClosedAndLiteral(parts);
    if s == Write(parts) {
      PartsReadOn(s, parts, front, literal);
      EndReads(s, literal);
    } else {
      LonePercentAt(s, Write(front), literal);
      var n := |literal| - 1;
      var less := front + Flushed(literal[..n]);
      WriteAppends(front, Flushed(literal[..n]));
      WriteFlushed(literal[..n]);
      PartsReadOn(s, less, front, literal[..n]);
      assert ReadFrom(s, |s| - 1, literal[..n]) == Parts(Flushed(literal));
    }
  }

  /**
   A text is read as literals and arguments exactly when it is their written form, with no literal empty and none behind
   another and numbers up to 1000; or that form without the second of two percent signs at its end.
   */
  lemma ReadsIff(s: string, parts: seq<Part>)
    ensures ReadFrom(s, 0, "") == Parts(parts) <==> Normal(parts) && ArgumentsFit(parts) && WrittenAs(s, parts)
  {
    hide ReadFrom, Normal, ArgumentsFit, WrittenAs;
    if ReadFrom(s, 0, "").Parts? {
      ReadIsWritten(s, 0, "");
      NoEscapes();
      assert "" + s[0..|s|] == s;
    }
    if Normal(parts) && ArgumentsFit(parts) && WrittenAs(s, parts) {
      WrittenIsRead(s, parts);
    }
  }

  // ---------------------------------------------------------------------------------------------
  // Where reading fails
  // ---------------------------------------------------------------------------------------------

  lemma {:induction false} FailureIsAt(s: string, p: nat, literal: string) returns (parts: seq<Part>)
    requires p <= |s| && ReadFrom(s, p, literal).Failed?
    ensures var r := ReadFrom(s, p, literal);
      && p <= r.position && r.position + 1 < |s| && s[r.position] == '%' && s[r.position + 1] != '%'
      && ReadArgument(s, r.position) == Bad(r.error)
      && Normal(parts) && ArgumentsFit(parts) && Escaped(literal) + s[p..r.position] == Write(parts)
    decreases |s| - p
  {
    hide ReadArgument, Write, Escaped, Normal, ArgumentsFit, Flushed, Decimal, NumberAt;
    var at := ReadFrom(s, p, literal).position;
    if s[p] != '%' {
      parts := FailureIsAt(s, p + 1, literal + [s[p]]);
      EscapedOne(literal, s[p]);
      assert s[p..p + 1] == [s[p]];
      Rejoined(Escaped(literal), s, p, p + 1, at);
    } else if s[p + 1] == '%' {
      parts := FailureIsAt(s, p + 2, literal + "%");
      EscapedOne(literal, '%');
      assert s[p..p + 2] == "%%";
      Rejoined(Escaped(literal), s, p, p + 2, at);
    } else {
      var argument := ReadArgument(s, p);
      if argument.Bad? {
        parts := Flushed(literal);
        WriteFlushed(literal);
        assert Escaped(literal) + s[p..p] == Escaped(literal);
      } else {
        parts := FailureIsAt(s, argument.next, "");
        ArgumentIff(s, p, argument.index, argument.next);
        FailsBehind(s, p, at, literal, argument.index, parts);
        parts := Flushed(literal) + [Argument(argument.index)] + parts;
      }
    }
  }

  lemma FailsBehind(s: string, p: nat, at: nat, literal: string, index: nat, rest: seq<Part>)
    requires index < 1000 && NumberAt(s, p, index + 1) && Normal(rest) && ArgumentsFit(rest)
    requires var q := p + |Decimal(index + 1)| + 2; q <= at <= |s| && Escaped("") + s[q..at] == Write(rest)
    ensures var parts := Flushed(literal) + [Argument(index)] + rest;
      Normal(parts) && ArgumentsFit(parts) && Escaped(literal) + s[p..at] == Write(parts)
  {
    hide Write, Decimal, Normal, ArgumentsFit, Flushed, NumberAt, Escaped;
    NoEscapes();
    WriteFront(literal, index, rest);
    NumberSlice(s, p, index + 1);
    var q := p + |Decimal(index + 1)| + 2;
    NothingInFront(s[q..at]);
    Rejoined(Escaped(literal), s, p, q, at);
  }

  /**
   Reading fails exactly at the first percent sign behind written parts that begins neither a doubled one nor a positional
   argument and is not the last character, with the error that `ReadArgument` gives there.
   */
  lemma FailsIff(s: string, error: Error, position: nat)
    ensures ReadFrom(s, 0, "") == Failed(error, position) <==>
      && position + 1 < |s| && s[position] == '%' && s[position + 1] != '%' && ReadArgument(s, position) == Bad(error)
      && exists parts :: Normal(parts) && ArgumentsFit(parts) && s[..position] == Write(parts)
  {
    hide ReadArgument, Normal, ArgumentsFit, Write;
    if ReadFrom(s, 0, "") == Failed(error, position) {
      var parts := FailureIsAt(s, 0, "");
      NoEscapes();
      assert "" + s[0..position] == s[..position];
    }
    if position + 1 < |s| && s[position] == '%' && s[position + 1] != '%' && ReadArgument(s, position) == Bad(error) {
      forall parts | Normal(parts) && ArgumentsFit(parts) && s[..position] == Write(parts)
        ensures ReadFrom(s, 0, "") == Failed(error, position)
      {
        var front, literal := ClosedAndLiteral(parts);
        PartsReadOn(s, parts, front, literal);
      }
    }
  }
}
