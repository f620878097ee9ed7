/** When the match of a generated file name gives the counter back. */
module FileNameMatching {
  import opened Wrappers
  import opened Digits
  import opened FileNames
  import opened FileNameProofs

  lemma DigitRunAtLeast(d: string, f: string)
    requires AllDigits(d)
    ensures DigitRun(d + f) >= |d|
  {
    GreedyRun(d, f);
  }

  /** A piece matches what it was turned into. */
  lemma MatchPiece(piece: Piece, dated: bool, clock: char -> string, n: nat, frac: nat, f: string, p: string, counter: Option<nat>)
    requires WellFormedPiece(piece) && !piece.Counter? && ClockOk(clock, frac)
    requires piece.Percent? ==> dated
    ensures MatchFrom(NamePiece(piece, dated, clock, n) + f, RenderPiece(piece) + p, frac, counter)
         == MatchFrom(f, p, frac, counter)
  {
    hide ParseCounter, Value;
    var g, q := NamePiece(piece, dated, clock, n) + f, RenderPiece(piece) + p;
    match piece
    case Text(c) =>
      assert g[1..] == f && q[1..] == p;
    case Percent =>
      assert g[1..] == f && q[2..] == p;
    case Date(kind) =>
      var w := DateWidth(kind, frac);
      DigitRunAtLeast(clock(kind), f);
      DropFront(clock(kind), f);
      assert q[2..] == p && q[1] != '%';
    case Counter(_, _, _) =>
  }

  lemma {:induction false} MatchPieces(pieces: seq<Piece>, dated: bool, clock: char -> string, n: nat, frac: nat,
                                       f: string, p: string, counter: Option<nat>)
    requires WellFormed(pieces) && NoCounter(pieces) && ClockOk(clock, frac)
    requires HasPercent(pieces) ==> dated
    ensures MatchFrom(Name(pieces, dated, clock, n) + f, Render(pieces) + p, frac, counter)
         == MatchFrom(f, p, frac, counter)
    decreases |pieces|
  {
    hide MatchFrom, NamePiece, RenderPiece, WellFormedPiece, ClockOk;
    if pieces == [] {
      assert Name(pieces, dated, clock, n) + f == f && Render(pieces) + p == p;
    } else {
      var rest := pieces[1..];
      assert HasPercent(rest) ==> HasPercent(pieces) by {
        if HasPercent(rest) {
          var i :| 0 <= i < |rest| && rest[i].Percent?;
          assert pieces[i + 1].Percent?;
        }
      }
      MatchPieces(rest, dated, clock, n, frac, f, p, counter);
      MatchPiece(pieces[0], dated, clock, n, frac, Name(rest, dated, clock, n) + f, Render(rest) + p, counter);
      assert Name(pieces, dated, clock, n) + f == NamePiece(pieces[0], dated, clock, n) + (Name(rest, dated, clock, n) + f);
      assert Render(pieces) + p == RenderPiece(pieces[0]) + (Render(rest) + p);
    }
  }

  /** One step of the match at a counter placeholder. */
  lemma MatchAtCounter(piece: Piece, frac: nat, f: string, p: string, counter: Option<nat>)
    requires piece.Counter? && WellFormedPiece(piece) && f != ""
    ensures MatchFrom(f, RenderPiece(piece) + p, frac, counter)
         == var n := DigitRun(f);
            if n < Value(piece.digits) || n == 0 || Value(f[..n]) >= WORD then NoMatch
            else MatchFrom(f[n..], p, frac, Some(Value(f[..n])))
  {
    hide ParseCounter, WellFormedPiece, CounterSpec, Value, DigitRun, DateWidth, RenderPiece, Ending;
    var spec := CounterSpec(piece);
    var q := RenderPiece(piece) + p;
    CounterReads(piece, p, 0);
    CounterPattern(piece, p);
    EmptyValue();
  }

  lemma CounterPattern(piece: Piece, p: string)
    requires piece.Counter? && WellFormedPiece(piece)
    ensures var q, spec := RenderPiece(piece) + p, CounterSpec(piece);
      && |q| > 1 && q[0] == '%' && q[1] != '%' && !IsDateKind(q[1])
      && q[1..] == spec + p && q[1 + |spec|..] == p
  {
    hide CounterSpec;
    var q, spec := RenderPiece(piece) + p, CounterSpec(piece);
    CounterSpecStart(piece);
    assert q[1..] == spec + p;
    assert q[1] == spec[0];
    DropFront(RenderPiece(piece), p);
  }

  /** The piece matches only at a digit. */
  predicate NeedsDigit(piece: Piece)
  {
    piece.Date? || piece.Counter? || (piece.Text? && IsDigit(piece.c))
  }

  /** Where all digits are used up, a piece that needs one does not match. */
  lemma Stuck(pieces: seq<Piece>, frac: nat, f: string, counter: Option<nat>)
    requires WellFormed(pieces) && pieces != [] && NeedsDigit(pieces[0]) && frac > 0
    requires f == "" || !IsDigit(f[0])
    ensures MatchFrom(f, Render(pieces), frac, counter) == NoMatch
  {
    var p := Render(pieces);
    assert p != "";
    if f != "" {
      DigitRunIs(f, 0);
      if pieces[0].Counter? {
        MatchAtCounter(pieces[0], frac, f, Render(pieces[1..]), counter);
      } else {
        hide ParseCounter;
        assert p[0] == RenderPiece(pieces[0])[0];
        assert pieces[0].Date? ==> p[1] == pieces[0].kind;
      }
    }
  }

  /** When the counter of a name with clash digits `suffix` can be told from what follows it. */
  predicate Recoverable(after: seq<Piece>, n: nat, suffix: string)
    requires AllDigits(suffix)
  {
    if after == [] then suffix == "" || (n == 0 && Value(suffix) == 0) else !NeedsDigit(after[0])
  }

  /** The digits of the counter and all digits behind them are read as one number. */
  lemma GreedyRun(text: string, g: string)
    requires AllDigits(text)
    ensures DigitRun(text + g) == |text| + DigitRun(g)
  {
    var n := DigitRun(g);
    var s := text + g;
    assert s[..|text| + n] == text + g[..n];
    assert n < |g| ==> s[|text| + n] == g[n];
    DigitRunIs(s, |text| + n);
  }

  lemma NameStart(pieces: seq<Piece>, dated: bool, clock: char -> string, n: nat, frac: nat, suffix: string)
    requires WellFormed(pieces) && pieces != [] && ClockOk(clock, frac)
    ensures Name(pieces, dated, clock, n) != ""
    ensures IsDigit((Name(pieces, dated, clock, n) + suffix)[0]) <==> NeedsDigit(pieces[0])
  {
    hide CounterText;
    var s := NamePiece(pieces[0], dated, clock, n);
    assert s != "" && Name(pieces, dated, clock, n)[0] == s[0];
  }

  lemma MatchesSuffix(suffix: string, frac: nat, n: nat)
    requires AllDigits(suffix)
    ensures MatchFrom(suffix, "", frac, Some(n)) == Matches(Some(n))
  {
  }

  /** A counter at the end of the pattern swallows the clash digits. */
  lemma LastCounterMatches(piece: Piece, text: string, n: nat, frac: nat, suffix: string, counter: Option<nat>)
    requires piece.Counter? && WellFormedPiece(piece)
    requires AllDigits(text) && text != "" && |text| >= Value(piece.digits) && Value(text) == n < WORD
    requires AllDigits(suffix)
    ensures MatchFrom(text + suffix, RenderPiece(piece) + "", frac, counter) == Matches(Some(n))
       <==> (suffix == "" || (n == 0 && Value(suffix) == 0))
  {
    hide RenderPiece, Value, WellFormedPiece;
    var f := text + suffix;
    MoreDigitsSameValueIff(text, suffix);
    DigitRunIs(f, |f|);
    MatchAtCounter(piece, frac, f, "", counter);
    assert f[..|f|] == f && f[|f|..] == "";
  }

  /** A counter in front of more digits swallows them, and the match fails. */
  lemma CounterBeforeDigit(piece: Piece, after: seq<Piece>, text: string, g: string, frac: nat, counter: Option<nat>)
    requires piece.Counter? && WellFormedPiece(piece) && WellFormed(after) && after != [] && NeedsDigit(after[0]) && frac > 0
    requires AllDigits(text) && text != ""
    ensures MatchFrom(text + g, RenderPiece(piece) + Render(after), frac, counter) == NoMatch
  {
    hide RenderPiece, Value, WellFormedPiece, Render, MatchFrom, NeedsDigit, WellFormed;
    var f := text + g;
    var n := DigitRun(f);
    MatchAtCounter(piece, frac, f, Render(after), counter);
    assert f[n..] == "" || f[n..][0] == f[n];
    Stuck(after, frac, f[n..], Some(Value(f[..n])));
  }

  /** A counter in front of anything else is read exactly. */
  lemma CounterBeforeOther(piece: Piece, text: string, n: nat, g: string, p: string, frac: nat, counter: Option<nat>)
    requires piece.Counter? && WellFormedPiece(piece)
    requires AllDigits(text) && text != "" && |text| >= Value(piece.digits) && Value(text) == n < WORD
    requires g == "" || !IsDigit(g[0])
    ensures MatchFrom(text + g, RenderPiece(piece) + p, frac, counter) == MatchFrom(g, p, frac, Some(n))
  {
    hide RenderPiece, Value, WellFormedPiece, MatchFrom;
    GreedyRun(text, g);
    DigitRunIs(g, 0);
    MatchAtCounter(piece, frac, text + g, p, counter);
    DropFront(text, g);
  }

  /** The match from the counter on. */
  lemma MatchFromCounter(piece: Piece, after: seq<Piece>, dated: bool, clock: char -> string, n: nat, frac: nat,
                         suffix: string, counter: Option<nat>)
    requires piece.Counter? && WellFormedPiece(piece) && WellFormed(after) && NoCounter(after)
    requires frac > 0 && ClockOk(clock, frac)
    requires HasPercent(after) ==> dated
    requires AllDigits(suffix) && n < WORD
    ensures MatchFrom(CounterText(n, Value(piece.digits)) + (Name(after, dated, clock, n) + suffix),
                      RenderPiece(piece) + Render(after), frac, counter) == Matches(Some(n))
       <==> Recoverable(after, n, suffix)
  {
    hide MatchFrom, CounterText, Value, RenderPiece, NeedsDigit, ClockOk, HasPercent, NamePiece;
    var text := CounterText(n, Value(piece.digits));
    var g := Name(after, dated, clock, n) + suffix;
    if after == [] {
      assert g == suffix && Render(after) == "";
      LastCounterMatches(piece, text, n, frac, suffix, counter);
    } else {
      hide Name, Render, AllDigits;
      NameStart(after, dated, clock, n, frac, suffix);
      if NeedsDigit(after[0]) {
        CounterBeforeDigit(piece, after, text, g, frac, counter);
      } else {
        CounterBeforeOther(piece, text, n, g, Render(after), frac, counter);
        MatchPieces(after, dated, clock, n, frac, suffix, "", Some(n));
        assert Render(after) + "" == Render(after);
        MatchesSuffix(suffix, frac, n);
      }
    }
  }

  // ---------------------------------------------------------------------------------------------
  // Escaped percent signs in names without date/time formatting
  // ---------------------------------------------------------------------------------------------

  function Percents(k: nat): (s: string)
    ensures |s| == k && forall i :: 0 <= i < k ==> s[i] == '%'
  {
    seq(k, _ => '%')
  }

  lemma PercentsMove(extra: nat, s: string)
    ensures extra > 0 ==> (Percents(extra) + ("%%" + s))[0] == '%'
    ensures extra > 0 ==> (Percents(extra) + ("%%" + s))[1..] == Percents(extra + 1) + s
    ensures extra > 0 ==> (Percents(extra) + s)[0] == '%'
    ensures ("%%" + s)[0] == '%' && ("%%" + s)[1..] == Percents(1) + s
  {
  }

  lemma MatchEscaped(f: string, p: string, frac: nat, counter: Option<nat>)
    requires f != "" && f[0] == '%'
    ensures MatchFrom(f, "%%" + p, frac, counter) == MatchFrom(f[1..], p, frac, counter)
  {
    assert ("%%" + p)[2..] == p;
  }

  /** Percent signs left over from earlier pieces never match. */
  lemma {:induction false} LeftoverFails(pieces: seq<Piece>, extra: nat, clock: char -> string, n: nat, frac: nat,
                                         suffix: string, counter: Option<nat>)
    requires WellFormed(pieces) && Dates(pieces) == 0 && extra > 0 && frac > 0
    ensures MatchFrom(Percents(extra) + (Name(pieces, false, clock, n) + suffix), Render(pieces), frac, counter) == NoMatch
    decreases |pieces|
  {
    hide MatchFrom, WellFormedPiece, Percents;
    var f := Percents(extra) + (Name(pieces, false, clock, n) + suffix);
    if pieces == [] {
      PercentsMove(extra, Name(pieces, false, clock, n) + suffix);
      OnlyPercentLeft(f, frac, counter);
    } else if pieces[0].Percent? {
      var rest := pieces[1..];
      var s := Name(rest, false, clock, n) + suffix;
      assert Name(pieces, false, clock, n) + suffix == "%%" + s;
      PercentsMove(extra, s);
      MatchEscaped(f, Render(rest), frac, counter);
      LeftoverFails(rest, extra + 1, clock, n, frac, suffix, counter);
    } else {
      hide Name, Render;
      PercentsMove(extra, Name(pieces, false, clock, n) + suffix);
      NotAtPercent(pieces, f, frac, counter);
    }
  }

  lemma OnlyPercentLeft(f: string, frac: nat, counter: Option<nat>)
    requires f != "" && f[0] == '%'
    ensures MatchFrom(f, "", frac, counter) == NoMatch
  {
  }

  lemma NotAtPercent(pieces: seq<Piece>, f: string, frac: nat, counter: Option<nat>)
    requires WellFormed(pieces) && pieces != [] && !pieces[0].Percent? && frac > 0
    requires f != "" && f[0] == '%'
    ensures MatchFrom(f, Render(pieces), frac, counter) == NoMatch
  {
    if NeedsDigit(pieces[0]) {
      Stuck(pieces, frac, f, counter);
    }
  }

  lemma PercentFurther(pieces: seq<Piece>)
    requires HasPercent(pieces) && !pieces[0].Percent?
    ensures HasPercent(pieces[1..])
  {
    var i :| 0 <= i < |pieces| && pieces[i].Percent?;
    assert pieces[1..][i - 1].Percent?;
  }

  lemma CounterFirst(pieces: seq<Piece>, clock: char -> string, n: nat, frac: nat, suffix: string, counter: Option<nat>)
    requires WellFormed(pieces) && |pieces| > 1 && pieces[0].Counter? && ClockOk(clock, frac) && frac > 0 && n < WORD
    ensures MatchFrom(Name(pieces, false, clock, n) + suffix, Render(pieces), frac, counter)
         == if NeedsDigit(pieces[1]) then NoMatch
            else MatchFrom(Name(pieces[1..], false, clock, n) + suffix, Render(pieces[1..]), frac, Some(n))
  {
    hide MatchFrom, CounterText, Value, RenderPiece, NeedsDigit, ClockOk;
    var piece, rest := pieces[0], pieces[1..];
    var text := CounterText(n, Value(piece.digits));
    var g := Name(rest, false, clock, n) + suffix;
    assert Name(pieces, false, clock, n) + suffix == text + g;
    NameStart(rest, false, clock, n, frac, suffix);
    if NeedsDigit(rest[0]) {
      CounterBeforeDigit(piece, rest, text, g, frac, counter);
    } else {
      CounterBeforeOther(piece, text, n, g, Render(rest), frac, counter);
    }
  }

  lemma MatchSame(c: char, f: string, p: string, frac: nat, counter: Option<nat>)
    requires c != '%'
    ensures MatchFrom([c] + f, [c] + p, frac, counter) == MatchFrom(f, p, frac, counter)
  {
    assert ([c] + f)[1..] == f && ([c] + p)[1..] == p;
  }

  /** Without date/time formatting a name keeps the doubled percent sign, which its pattern does not match. */
  lemma {:induction false} DoubledPercentFails(pieces: seq<Piece>, clock: char -> string, n: nat, frac: nat,
                                               suffix: string, counter: Option<nat>)
    requires WellFormed(pieces) && Dates(pieces) == 0 && HasPercent(pieces) && ClockOk(clock, frac) && frac > 0
    requires n < WORD
    ensures MatchFrom(Name(pieces, false, clock, n) + suffix, Render(pieces), frac, counter) == NoMatch
    decreases |pieces|
  {
    hide ClockOk, Value, CounterText, MatchFrom, HasPercent, Percents, NeedsDigit;
    PercentMeansSome(pieces);
    var rest := pieces[1..];
    var f, s := Name(pieces, false, clock, n) + suffix, Name(rest, false, clock, n) + suffix;
    if pieces[0].Percent? {
      assert f == "%%" + s;
      PercentsMove(1, s);
      MatchEscaped(f, Render(rest), frac, counter);
      LeftoverFails(rest, 1, clock, n, frac, suffix, counter);
    } else {
      PercentFurther(pieces);
      PercentMeansSome(rest);
      if pieces[0].Text? {
        assert f == [pieces[0].c] + s;
        MatchSame(pieces[0].c, s, Render(rest), frac, counter);
        DoubledPercentFails(rest, clock, n, frac, suffix, counter);
      } else {
        CounterFirst(pieces, clock, n, frac, suffix, counter);
        if !NeedsDigit(rest[0]) {
          DoubledPercentFails(rest, clock, n, frac, suffix, Some(n));
        }
      }
    }
  }

  lemma PercentMeansSome(pieces: seq<Piece>)
    requires HasPercent(pieces)
    ensures pieces != []
  {
  }

  // ---------------------------------------------------------------------------------------------
  // Generation followed by matching
  // ---------------------------------------------------------------------------------------------

  lemma {:induction false} DatesAppend(a: seq<Piece>, b: seq<Piece>)
    ensures Dates(a + b) == Dates(a) + Dates(b)
    decreases |a|
  {
    if a == [] {
      assert a + b == b;
    } else {
      DatesAppend(a[1..], b);
      assert (a + b)[1..] == a[1..] + b;
    }
  }

  lemma HasPercentAppend(a: seq<Piece>, b: seq<Piece>)
    ensures HasPercent(a + b) <==> HasPercent(a) || HasPercent(b)
  {
    var s := a + b;
    if HasPercent(b) {
      var i :| 0 <= i < |b| && b[i].Percent?;
      assert s[|a| + i].Percent?;
    }
    if HasPercent(a) {
      var i :| 0 <= i < |a| && a[i].Percent?;
      assert s[i].Percent?;
    }
  }

  /** The match of a generated name, seen piece by piece. */
  lemma NameMatches(before: seq<Piece>, piece: Piece, after: seq<Piece>, dated: bool, clock: char -> string,
                    n: nat, suffix: string, frac: nat)
    requires WellFormed(before) && WellFormed(after) && NoCounter(before) && NoCounter(after)
    requires piece.Counter? && WellFormedPiece(piece)
    requires frac > 0 && ClockOk(clock, frac) && AllDigits(suffix) && n < WORD
    requires HasPercent(before + after) ==> dated
    ensures MatchFrom(Name(before, dated, clock, n) + (CounterText(n, Value(piece.digits)) + (Name(after, dated, clock, n) + suffix)),
                      Render(before) + (RenderPiece(piece) + Render(after)), frac, None) == Matches(Some(n))
       <==> Recoverable(after, n, suffix)
  {
    hide MatchFrom, Name, Render, RenderPiece, CounterText, Value, ClockOk, HasPercent, WellFormed;
    HasPercentAppend(before, after);
    var text := CounterText(n, Value(piece.digits));
    MatchPieces(before, dated, clock, n, frac, text + (Name(after, dated, clock, n) + suffix),
                RenderPiece(piece) + Render(after), None);
    MatchFromCounter(piece, after, dated, clock, n, frac, suffix, None);
  }

  /**
   For every pattern with one counter placeholder, every clock, counter value and clash suffix: the generated name
   matches its pattern and gives its counter back exactly when the counter is not followed by digits, and escaped
   percent signs occur only together with a date/time placeholder.
   */
  lemma GeneratedNameMatches(before: seq<Piece>, piece: Piece, after: seq<Piece>, clock: char -> string,
                             n: nat, suffix: string, frac: nat)
    requires WellFormed(before) && WellFormed(after) && NoCounter(before) && NoCounter(after)
    requires piece.Counter? && WellFormedPiece(piece)
    requires frac > 0 && ClockOk(clock, frac) && AllDigits(suffix) && n < WORD
    ensures var pattern := Render(before) + (RenderPiece(piece) + Render(after));
      MatchFrom(GenerateName(pattern, clock, n) + suffix, pattern, frac, None) == Matches(Some(n))
      <==> (Recoverable(after, n, suffix) && (HasPercent(before + after) ==> HasDate(before + after)))
  {
    hide MatchFrom, Name, Render, RenderPiece, CounterText, Value, ClockOk, HasPercent, HasDate,
      WellFormed, NoCounter, GenerateName, Dates, Recoverable;
    var dated := Dated(before, after);
    DatesAppend(before, after);
    var text := CounterText(n, Value(piece.digits));
    var b, a := Name(before, dated, clock, n), Name(after, dated, clock, n);
    GeneratesName(before, piece, after, clock, n);
    assert (b + (text + a)) + suffix == b + (text + (a + suffix));
    if HasPercent(before + after) && !dated {
      UndatedPercentFails(before, piece, after, clock, n, suffix, frac);
    } else {
      NameMatches(before, piece, after, dated, clock, n, suffix, frac);
    }
  }

  lemma UndatedPercentFails(before: seq<Piece>, piece: Piece, after: seq<Piece>, clock: char -> string,
                            n: nat, suffix: string, frac: nat)
    requires WellFormed(before) && WellFormed(after)
    requires piece.Counter? && WellFormedPiece(piece)
    requires frac > 0 && ClockOk(clock, frac) && AllDigits(suffix) && n < WORD
    requires !Dated(before, after) && HasPercent(before + after)
    ensures MatchFrom(Name(before, false, clock, n) + (CounterText(n, Value(piece.digits)) + (Name(after, false, clock, n) + suffix)),
                      Render(before) + (RenderPiece(piece) + Render(after)), frac, None) == NoMatch
  {
    hide MatchFrom, CounterText, Value, ClockOk, HasPercent, Render, Name, Dates, RenderPiece;
    var middle := [piece] + after;
    var text := CounterText(n, Value(piece.digits));
    CounterAndRest(piece, after, clock, n);
    UndatedWholeFails(before, middle, after, piece, clock, n, suffix, frac);
    Regroup(Name(before, false, clock, n), text, Name(after, false, clock, n), suffix);
  }

  lemma Regroup(a: string, b: string, c: string, d: string)
    ensures a + (b + c) + d == a + (b + (c + d))
  {
  }

  lemma CounterAndRest(piece: Piece, after: seq<Piece>, clock: char -> string, n: nat)
    requires piece.Counter? && WellFormedPiece(piece) && WellFormed(after)
    ensures WellFormed([piece] + after)
    ensures Render([piece] + after) == RenderPiece(piece) + Render(after)
    ensures Name([piece] + after, false, clock, n) == CounterText(n, Value(piece.digits)) + Name(after, false, clock, n)
    ensures Dates([piece] + after) == Dates(after)
  {
    hide CounterText, Value, RenderPiece;
    assert ([piece] + after)[1..] == after;
  }

  lemma UndatedWholeFails(before: seq<Piece>, middle: seq<Piece>, after: seq<Piece>, piece: Piece, clock: char -> string,
                          n: nat, suffix: string, frac: nat)
    requires WellFormed(before) && WellFormed(middle) && middle == [piece] + after
    requires frac > 0 && ClockOk(clock, frac) && n < WORD
    requires Dates(before) == 0 && Dates(middle) == 0 && HasPercent(before + after)
    ensures MatchFrom(Name(before, false, clock, n) + Name(middle, false, clock, n) + suffix,
                      Render(before) + Render(middle), frac, None) == NoMatch
  {
    hide MatchFrom, Name, Render, ClockOk, HasPercent, Dates, WellFormedPiece;
    HasPercentAppend(before, after);
    HasPercentAppend([piece], after);
    HasPercentAppend(before, middle);
    RenderAppends(before, middle);
    NameAppends(before, middle, false, clock, n);
    DatesAppend(before, middle);
    DoubledPercentFails(before + middle, clock, n, frac, suffix, None);
  }

  /** Digits added on a name clash are read as part of a counter that ends the pattern. */
  lemma ClashDigitsMisread(clock: char -> string)
    requires ClockOk(clock, 6)
    ensures MatchFrom(GenerateName("%N", clock, 1) + "00000", "%N", 6, None) != Matches(Some(1))
  {
    var piece := Counter("", "", None);
    assert RenderPiece(piece) == "%N";
    assert Render([]) + (RenderPiece(piece) + Render([])) == "%N";
    GeneratedNameMatches([], piece, [], clock, 1, "00000", 6);
  }

  /** A pattern with an escaped percent sign and no date/time placeholder does not match its own names. */
  lemma EscapedPercentDoesNotMatch(clock: char -> string)
    requires ClockOk(clock, 6)
    ensures MatchFrom(GenerateName("%%%N", clock, 1) + "", "%%%N", 6, None) != Matches(Some(1))
  {
    var piece := Counter("", "", None);
    assert RenderPiece(piece) == "%N";
    assert Render([Percent]) == "%%";
    assert Render([Percent]) + (RenderPiece(piece) + Render([])) == "%%%N";
    assert ([Percent] + [])[0].Percent?;
    assert !HasDate([Percent] + []);
    GeneratedNameMatches([Percent], piece, [], clock, 1, "", 6);
  }
}
