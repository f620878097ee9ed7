/** Generated file names match their pattern, and the match gives the counter back exactly when it can. */
module FileNameProofs {
  import opened Wrappers
  import opened Digits
  import opened FileNames

  // ---------------------------------------------------------------------------------------------
  // Reading a rendered pattern
  // ---------------------------------------------------------------------------------------------

  lemma {:induction false} RenderAppends(a: seq<Piece>, b: seq<Piece>)
    ensures Render(a + b) == Render(a) + Render(b)
    decreases |a|
  {
    hide RenderPiece;
    if a == [] {
      assert a + b == b;
    } else {
      RenderAppends(a[1..], b);
      assert (a + b)[1..] == a[1..] + b;
    }
  }

  lemma {:induction false} NameAppends(a: seq<Piece>, b: seq<Piece>, dated: bool, clock: char -> string, n: nat)
    requires WellFormed(a) && WellFormed(b)
    ensures WellFormed(a + b)
    ensures Name(a + b, dated, clock, n) == Name(a, dated, clock, n) + Name(b, dated, clock, n)
    decreases |a|
  {
    hide NamePiece, WellFormedPiece;
    if a == [] {
      assert a + b == b;
    } else {
      NameAppends(a[1..], b, dated, clock, n);
      assert (a + b)[1..] == a[1..] + b;
    }
  }

  lemma DropFront(a: string, b: string)
    ensures (a + b)[..|a|] == a && (a + b)[|a|..] == b
  {
  }

  lemma PrecisionReads(p: string, b: nat, n: nat, width: nat)
    requires b + n < |p| && p[b + n] == 'N'
    requires n > 0 ==> p[b] == '.' && forall i :: b < i < b + n ==> IsDigit(p[i])
    ensures ParsePrecision(p, b, width) == Placeholder(true, b + n + 1, width)
  {
    if n > 0 {
      var digits := p[b + 1..][..n - 1];
      forall i | 0 <= i < n - 1
        ensures IsDigit(digits[i])
      {
        assert digits[i] == p[b + 1 + i];
      }
      DigitRunIs(p[b + 1..], n - 1);
    }
  }

  lemma WidthReads(p: string, a: nat, digits: string, rest: string, width: nat)
    requires a <= |p| && p[a..] == digits + rest
    requires AllDigits(digits) && Value(digits) < WORD
    requires rest != "" && !IsDigit(rest[0])
    ensures ParseWidth(p, a, width) == ParsePrecision(p, a + |digits|, if digits == "" then width else Value(digits))
  {
    hide Value, ParsePrecision, DigitRun;
    DropFront(digits, rest);
    DigitRunIs(p[a..], |digits|);
  }

  lemma FourParts(flag: string, digits: string, precision: string, rest: string, p: string)
    requires p == flag + digits + precision + "N" + rest
    ensures p[|flag| + |digits| + |precision|] == 'N'
    ensures forall i :: 0 <= i < |precision| ==> p[|flag| + |digits| + i] == precision[i]
    ensures p[|flag|..] == digits + p[|flag| + |digits|..]
  {
  }

  lemma CounterSpecPrecision(piece: Piece, rest: string)
    requires piece.Counter? && WellFormedPiece(piece)
    ensures var p, b, n := CounterSpec(piece) + rest, |piece.flag| + |piece.digits|, |PrecisionText(piece)|;
      && b + n + 1 == |CounterSpec(piece)| && p[b + n] == 'N'
      && (n > 0 ==> p[b] == '.' && forall i :: b < i < b + n ==> IsDigit(p[i]))
      && p[|piece.flag|..] == piece.digits + p[b..]
  {
    var p, b := CounterSpec(piece) + rest, |piece.flag| + |piece.digits|;
    var precision := PrecisionText(piece);
    assert precision != "" ==> precision[0] == '.' && forall i :: 0 < i < |precision| ==> IsDigit(precision[i]);
    hide PrecisionText;
    FourParts(piece.flag, piece.digits, precision, rest, p);
    if precision != "" {
      assert p[b] == p[b + 0];
      forall i | b < i < b + |precision|
        ensures IsDigit(p[i])
      {
        assert p[i] == p[b + (i - b)];
      }
    }
  }

  /** A counter placeholder is read whole, whatever follows it. */
  lemma CounterReads(piece: Piece, rest: string, width: nat)
    requires piece.Counter? && WellFormedPiece(piece)
    ensures ParseCounter(CounterSpec(piece) + rest, width)
         == Placeholder(true, |CounterSpec(piece)|, if piece.digits == "" then width else Value(piece.digits))
  {
    hide ParseWidth, ParsePrecision, Value, CounterSpec, PrecisionText;
    var p, a := CounterSpec(piece) + rest, |piece.flag|;
    var b, n := a + |piece.digits|, |PrecisionText(piece)|;
    CounterSpecPrecision(piece, rest);
    assert !IsDigit(p[b]) by {
      if n == 0 {
        assert p[b] == 'N';
      }
    }
    assert p[b..][0] == p[b];
    WidthReads(p, a, piece.digits, p[b..], width);
    PrecisionReads(p, b, n, if piece.digits == "" then width else Value(piece.digits));
    CounterSpecStart(piece);
    assert p[0] == CounterSpec(piece)[0];
  }

  lemma CounterSpecStart(piece: Piece)
    requires piece.Counter? && WellFormedPiece(piece)
    ensures CounterSpec(piece) != "" && CounterSpec(piece)[0] != '%' && !IsDateKind(CounterSpec(piece)[0])
    ensures IsFlag(CounterSpec(piece)[0]) <==> piece.flag != ""
  {
    var spec := CounterSpec(piece);
    if piece.flag != "" {
      assert spec[0] == piece.flag[0];
    } else if piece.digits != "" {
      assert spec[0] == piece.digits[0];
      assert IsDigit(spec[0]);
    }
  }

  /** A date/time placeholder is not taken for a counter. */
  lemma DateIsNotCounter(kind: char, rest: string, width: nat)
    requires IsDateKind(kind)
    ensures ParseCounter([kind] + rest, width) == Placeholder(false, 0, width)
  {
    var p := [kind] + rest;
    assert p[0..] == p;
    DigitRunIs(p, 0);
  }

  // ---------------------------------------------------------------------------------------------
  // Generation
  // ---------------------------------------------------------------------------------------------

  function Dates(pieces: seq<Piece>): (n: nat)
    ensures n > 0 <==> HasDate(pieces)
  {
    if pieces == [] then 0
    else
      var n := Dates(pieces[1..]);
      if pieces[0].Date? then n + 1
      else
        assert HasDate(pieces[1..]) ==> HasDate(pieces) by {
          if HasDate(pieces[1..]) {
            var i :| 0 <= i < |pieces[1..]| && pieces[1..][i].Date?;
            assert pieces[i + 1].Date?;
          }
        }
        assert HasDate(pieces) ==> HasDate(pieces[1..]) by {
          if HasDate(pieces) {
            var i :| 0 <= i < |pieces| && pieces[i].Date?;
            assert pieces[1..][i - 1].Date?;
          }
        }
        n
  }

  /** The same split, seen from `chars` characters and `dates` placeholders earlier. */
  function Moved(s: Split, chars: nat, dates: nat): (r: Split)
  {
    s.(pos := s.pos + chars, placeholders := s.placeholders + dates)
  }

  lemma SplitSkipsPiece(piece: Piece, rest: string, width: nat)
    requires WellFormedPiece(piece) && !piece.Counter? && |rest| >= 2
    ensures SplitPattern(RenderPiece(piece) + rest, width)
         == Moved(SplitPattern(rest, width), |RenderPiece(piece)|, if piece.Date? then 1 else 0)
  {
    var p := RenderPiece(piece) + rest;
    match piece
    case Text(c) =>
      assert p[1..] == rest;
    case Percent =>
      assert p[2..] == rest;
    case Date(kind) =>
      assert p[1..] == [kind] + rest;
      DateIsNotCounter(kind, rest, width);
      assert p[1..][1..] == rest;
      hide ParseCounter;
      assert kind != '%';
    case Counter(_, _, _) =>
  }

  lemma {:induction false} SplitSkips(pieces: seq<Piece>, rest: string, width: nat)
    requires WellFormed(pieces) && NoCounter(pieces) && |rest| >= 2
    ensures SplitPattern(Render(pieces) + rest, width)
         == Moved(SplitPattern(rest, width), |Render(pieces)|, Dates(pieces))
    decreases |pieces|
  {
    hide SplitPattern, RenderPiece, WellFormedPiece;
    if pieces == [] {
      assert Render(pieces) + rest == rest;
    } else {
      SplitSkips(pieces[1..], rest, width);
      SplitSkipsPiece(pieces[0], Render(pieces[1..]) + rest, width);
      assert Render(pieces) + rest == RenderPiece(pieces[0]) + (Render(pieces[1..]) + rest);
    }
  }

  lemma {:induction false} CountsDates(pieces: seq<Piece>)
    requires WellFormed(pieces) && NoCounter(pieces)
    ensures CountPlaceholders(Render(pieces)) == Dates(pieces)
    decreases |pieces|
  {
    if pieces != [] {
      CountsDates(pieces[1..]);
      var p, rest := Render(pieces), Render(pieces[1..]);
      hide Render;
      match pieces[0]
      case Text(c) =>
        assert p == [c] + rest && p[1..] == rest;
      case Percent =>
        assert p == "%%" + rest && p[2..] == rest;
      case Date(kind) =>
        assert p == ['%', kind] + rest && p[1..] == [kind] + rest && p[1..][1..] == rest;
        assert kind != '%';
      case Counter(_, _, _) =>
    }
  }

  lemma SplitAtCounter(piece: Piece, tail: string)
    requires piece.Counter? && WellFormedPiece(piece)
    ensures |RenderPiece(piece) + tail| >= 2
    ensures SplitPattern(RenderPiece(piece) + tail, 0)
         == Split(true, 0, |RenderPiece(piece)|, Value(piece.digits), CountPlaceholders(tail))
  {
    hide ParseCounter, WellFormedPiece, CountPlaceholders, CounterSpec;
    var spec := CounterSpec(piece);
    var p := RenderPiece(piece) + tail;
    CounterSpecStart(piece);
    CounterReads(piece, tail, 0);
    assert p[1..] == spec + tail;
    assert p[1] == spec[0];
    DropFront(RenderPiece(piece), tail);
    assert |RenderPiece(piece)| == 1 + |spec|;
  }

  /** The split of a pattern with one counter. */
  lemma SplitFindsCounter(before: seq<Piece>, piece: Piece, after: seq<Piece>)
    requires WellFormed(before) && WellFormed(after) && NoCounter(before) && NoCounter(after)
    requires piece.Counter? && WellFormedPiece(piece)
    ensures SplitPattern(Render(before) + (RenderPiece(piece) + Render(after)), 0)
         == Split(true, |Render(before)|, |RenderPiece(piece)|, Value(piece.digits), Dates(after) + Dates(before))
  {
    hide Render, WellFormedPiece, SplitPattern, Dates, RenderPiece, Value;
    SplitAtCounter(piece, Render(after));
    CountsDates(after);
    SplitSkips(before, RenderPiece(piece) + Render(after), 0);
  }

  lemma FormatsPiece(piece: Piece, rest: string, clock: char -> string, n: nat)
    requires WellFormedPiece(piece) && !piece.Counter?
    ensures FormatDates(RenderPiece(piece) + rest, clock) == NamePiece(piece, true, clock, n) + FormatDates(rest, clock)
  {
    var p := RenderPiece(piece) + rest;
    match piece
    case Text(c) =>
      assert p[1..] == rest;
    case Percent =>
      assert p[2..] == rest;
    case Date(kind) =>
      assert p[2..] == rest && kind != '%';
    case Counter(_, _, _) =>
  }

  lemma {:induction false} FormatsPieces(pieces: seq<Piece>, rest: string, clock: char -> string, n: nat)
    requires WellFormed(pieces) && NoCounter(pieces)
    ensures FormatDates(Render(pieces) + rest, clock) == Name(pieces, true, clock, n) + FormatDates(rest, clock)
    decreases |pieces|
  {
    hide FormatDates, RenderPiece, NamePiece, WellFormedPiece;
    if pieces == [] {
      assert Render(pieces) + rest == rest;
    } else {
      FormatsPieces(pieces[1..], rest, clock, n);
      FormatsPiece(pieces[0], Render(pieces[1..]) + rest, clock, n);
      assert Render(pieces) + rest == RenderPiece(pieces[0]) + (Render(pieces[1..]) + rest);
    }
  }

  lemma {:induction false} FormatsDigits(digits: string, rest: string, clock: char -> string)
    requires AllDigits(digits)
    ensures FormatDates(digits + rest, clock) == digits + FormatDates(rest, clock)
    decreases |digits|
  {
    if digits == "" {
      assert digits + rest == rest;
    } else {
      var p := digits + rest;
      assert p[1..] == digits[1..] + rest;
      assert p[0] == digits[0] && digits[0] != '%';
      FormatsDigits(digits[1..], rest, clock);
    }
  }

  lemma {:induction false} UndatedName(pieces: seq<Piece>, clock: char -> string, n: nat)
    requires WellFormed(pieces) && NoCounter(pieces) && Dates(pieces) == 0
    ensures Name(pieces, false, clock, n) == Render(pieces)
    decreases |pieces|
  {
    if pieces != [] {
      UndatedName(pieces[1..], clock, n);
    }
  }

  lemma FormatsWhole(before: seq<Piece>, digits: string, after: seq<Piece>, clock: char -> string, n: nat)
    requires WellFormed(before) && WellFormed(after) && NoCounter(before) && NoCounter(after)
    requires AllDigits(digits)
    ensures FormatDates(Render(before) + (digits + Render(after)), clock)
         == Name(before, true, clock, n) + (digits + Name(after, true, clock, n))
  {
    FormatsPieces(before, digits + Render(after), clock, n);
    FormatsDigits(digits, Render(after), clock);
    FormatsPieces(after, "", clock, n);
    hide Render, Name, WellFormed, NoCounter, AllDigits;
    assert Render(after) + "" == Render(after);
    assert FormatDates("", clock) == "";
    assert Name(after, true, clock, n) + "" == Name(after, true, clock, n);
  }

  /** Date/time formatting takes place exactly when there is a date/time placeholder. */
  predicate Dated(before: seq<Piece>, after: seq<Piece>)
  {
    Dates(after) + Dates(before) > 0
  }

  /** The generated name, piece by piece. */
  lemma GeneratesName(before: seq<Piece>, piece: Piece, after: seq<Piece>, clock: char -> string, n: nat)
    requires WellFormed(before) && WellFormed(after) && NoCounter(before) && NoCounter(after)
    requires piece.Counter? && WellFormedPiece(piece)
    ensures GenerateName(Render(before) + (RenderPiece(piece) + Render(after)), clock, n)
         == Name(before, Dated(before, after), clock, n)
            + (CounterText(n, Value(piece.digits)) + Name(after, Dated(before, after), clock, n))
  {
    hide Render, RenderPiece, SplitPattern, CounterText, Dates, Name, FormatDates, Value, WellFormed, NoCounter;
    var b, c, a := Render(before), RenderPiece(piece), Render(after);
    var p := b + (c + a);
    var text := CounterText(n, Value(piece.digits));
    SplitFindsCounter(before, piece, after);
    DropFront(b, c + a);
    DropFront(b + c, a);
    assert p == (b + c) + a;
    assert b + text + a == b + (text + a);
    if Dated(before, after) {
      FormatsWhole(before, text, after, clock, n);
    } else {
      UndatedName(before, clock, n);
      UndatedName(after, clock, n);
    }
  }

  /** Without a counter none is found, and the placeholders are the dates. */
  lemma {:induction false} NothingSplit(pieces: seq<Piece>, width: nat)
    requires WellFormed(pieces) && NoCounter(pieces)
    ensures var s := SplitPattern(Render(pieces), width); !s.found && s.placeholders == Dates(pieces)
    decreases |pieces|
  {
    if pieces != [] {
      NothingSplit(pieces[1..], width);
      var p, rest := Render(pieces), Render(pieces[1..]);
      hide Render;
      match pieces[0]
      case Text(c) =>
        assert p == [c] + rest && p[1..] == rest;
      case Percent =>
        assert p == "%%" + rest && p[2..] == rest;
      case Date(kind) =>
        assert p == ['%', kind] + rest && p[1..] == [kind] + rest && p[1..][1..] == rest;
        DateIsNotCounter(kind, rest, width);
        hide ParseCounter;
        assert kind != '%' && |p[1..]| >= 1;
        DateSplits(kind, rest, width);
      case Counter(_, _, _) =>
    }
  }

  /** A letter in front of the rest of a pattern. */
  lemma DateSplits(kind: char, rest: string, width: nat)
    requires IsDateKind(kind)
    ensures var s, t := SplitPattern([kind] + rest, width), SplitPattern(rest, width); s.found == t.found && s.placeholders == t.placeholders
  {
    assert ([kind] + rest)[1..] == rest;
  }

  /** The name generated from a pattern without a counter, for every counter value. */
  lemma GeneratesPlainName(pieces: seq<Piece>, clock: char -> string, n: nat)
    requires WellFormed(pieces) && NoCounter(pieces)
    ensures GenerateName(Render(pieces), clock, n) == Name(pieces, Dates(pieces) > 0, clock, n)
  {
    hide Render, SplitPattern, Dates, Name, WellFormed, NoCounter;
    NothingSplit(pieces, 0);
    if Dates(pieces) > 0 {
      FormatsPieces(pieces, "", clock, n);
      assert Render(pieces) + "" == Render(pieces);
      assert FormatDates("", clock) == "";
      assert Name(pieces, true, clock, n) + "" == Name(pieces, true, clock, n);
    } else {
      UndatedName(pieces, clock, n);
    }
  }
}
