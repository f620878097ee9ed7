/**
 Which file names match a pattern: those that can be cut into one part for each piece of the pattern and, behind them,
 digits that a name clash may have added. This is stated without reference to the matching itself, for every name.
 */
module FileNameCuts {
  import opened Wrappers
  import opened Digits
  import opened FileNames
  import opened FileNameProofs
  import opened FileNameMatching

  /**
   What a piece stands for in a name: a character for itself; two digits for a date or time component, four for a full year,
   `frac` for fractional seconds; and for a counter all the digits in front of `next`, at least as many as its width says.
   */
  predicate Stands(piece: Piece, part: string, next: string, frac: nat)
  {
    match piece
    case Text(c) => part == [c]
    case Percent => part == "%"
    case Date(kind) =>
      && AllDigits(part)
      && ((kind in "SMHdmy" && |part| == 2) || (kind == 'Y' && |part| == 4) || (kind == 'f' && |part| == frac))
    case Counter(_, digits, _) =>
      && AllDigits(part) && part != "" && (next != "" ==> !IsDigit(next[0])) && Value(part) < 0x1_0000_0000
      && AllDigits(digits) && |part| >= Value(digits)
  }

  /** The name begins with one part for each piece and goes on with `rest`. The text is not used up before the pieces are. */
  predicate Cut(f: string, pieces: seq<Piece>, parts: seq<string>, rest: string, frac: nat)
    decreases |pieces|
  {
    && |parts| == |pieces|
    && if pieces == [] then f == rest
       else
         && f != "" && parts[0] <= f && Stands(pieces[0], parts[0], f[|parts[0]|..], frac)
         && Cut(f[|parts[0]|..], pieces[1..], parts[1..], rest, frac)
  }

  /** The value of the last counter part, or `counter` if there is none. */
  function CounterOf(pieces: seq<Piece>, parts: seq<string>, counter: Option<nat>): (c: Option<nat>)
    requires |parts| == |pieces|
    decreases |pieces|
  {
    if pieces == [] then counter
    else CounterOf(pieces[1..], parts[1..], if pieces[0].Counter? && AllDigits(parts[0]) then Some(Value(parts[0])) else counter)
  }

  /** The length of the part a name begins with, if it begins with one. */
  function PartLength(piece: Piece, f: string, frac: nat): (k: Option<nat>)
    requires WellFormedPiece(piece)
    ensures k.Some? ==> k.value <= |f|
  {
    match piece
    case Text(c) => if f != "" && f[0] == c then Some(1) else None
    case Percent => if f != "" && f[0] == '%' then Some(1) else None
    case Date(kind) => if DigitRun(f) >= DateWidth(kind, frac) then Some(DateWidth(kind, frac)) else None
    case Counter(_, digits, _) =>
      var n := DigitRun(f);
      if n < Value(digits) || n == 0 || Value(f[..n]) >= WORD then None else Some(n)
  }

  lemma RunCovers(f: string, k: nat)
    requires k <= |f|
    ensures AllDigits(f[..k]) <==> DigitRun(f) >= k
  {
    var n := DigitRun(f);
    if n < k {
      assert f[..k][n] == f[n];
    } else {
      forall i | 0 <= i < k
        ensures IsDigit(f[..k][i])
      {
        assert f[..n][i] == f[i];
      }
    }
  }

  lemma RunIsMaximal(f: string, k: nat)
    requires k <= |f|
    ensures AllDigits(f[..k]) && (f[k..] != "" ==> !IsDigit(f[k..][0])) <==> DigitRun(f) == k
  {
    RunCovers(f, k);
    if k < |f| {
      assert f[k..][0] == f[k];
      if AllDigits(f[..k]) && !IsDigit(f[k]) {
        DigitRunIs(f, k);
      }
    }
  }

  /** A part stands for its piece exactly when the name begins with a part of that length. */
  lemma StandsIff(piece: Piece, f: string, k: nat, frac: nat)
    requires WellFormedPiece(piece) && k <= |f|
    ensures Stands(piece, f[..k], f[k..], frac) <==> PartLength(piece, f, frac) == Some(k)
  {
    hide Value, DigitRun, AllDigits;
    match piece
    case Text(c) =>
      assert k == 1 ==> f[..1] == [f[0]];
    case Percent =>
      assert k == 1 ==> f[..1] == [f[0]];
    case Date(kind) =>
      RunCovers(f, k);
    case Counter(_, digits, _) =>
      RunIsMaximal(f, k);
  }

  /** One piece of the match. */
  lemma MatchOne(piece: Piece, f: string, p: string, frac: nat, counter: Option<nat>)
    requires WellFormedPiece(piece) && f != ""
    ensures var k := PartLength(piece, f, frac);
      MatchFrom(f, RenderPiece(piece) + p, frac, counter)
      == if k.None? then NoMatch
         else MatchFrom(f[k.value..], p, frac, if piece.Counter? then Some(Value(f[..k.value])) else counter)
  {
    hide ParseCounter, Value, DigitRun;
    var q := RenderPiece(piece) + p;
    match piece
    case Text(c) => assert q[1..] == p;
    case Percent => assert q[2..] == p;
    case Date(kind) => assert q[2..] == p && q[1] == kind;
    case Counter(_, _, _) => MatchAtCounter(piece, frac, f, p, counter);
  }

  /** Where the name begins with one part for each piece, the match goes on behind them. */
  lemma {:induction false} CutMatches(f: string, pieces: seq<Piece>, parts: seq<string>, rest: string, frac: nat, p: string,
                                      counter: Option<nat>)
    requires WellFormed(pieces) && Cut(f, pieces, parts, rest, frac)
    ensures MatchFrom(f, Render(pieces) + p, frac, counter) == MatchFrom(rest, p, frac, CounterOf(pieces, parts, counter))
    decreases |pieces|
  {
    hide MatchFrom, RenderPiece, WellFormedPiece, Stands, PartLength;
    if pieces == [] {
      assert Render(pieces) + p == p;
    } else {
      var k := |parts[0]|;
      assert f[..k] == parts[0];
      StandsIff(pieces[0], f, k, frac);
      CounterPartIsDigits(pieces[0], parts[0], f[k..], frac);
      MatchOne(pieces[0], f, Render(pieces[1..]) + p, frac, counter);
      assert Render(pieces) + p == RenderPiece(pieces[0]) + (Render(pieces[1..]) + p);
      CutMatches(f[k..], pieces[1..], parts[1..], rest, frac, p,
                 if pieces[0].Counter? then Some(Value(parts[0])) else counter);
    }
  }

  lemma CounterPartIsDigits(piece: Piece, part: string, next: string, frac: nat)
    requires Stands(piece, part, next, frac)
    ensures piece.Counter? ==> AllDigits(part)
  {
  }

  /** Otherwise the name does not match, whatever the pattern goes on with. */
  lemma {:induction false} MatchCuts(f: string, pieces: seq<Piece>, frac: nat, p: string, counter: Option<nat>)
    returns (cut: Option<(seq<string>, string)>)
    requires WellFormed(pieces)
    ensures cut.Some? ==> Cut(f, pieces, cut.value.0, cut.value.1, frac)
    ensures cut.None? ==> MatchFrom(f, Render(pieces) + p, frac, counter) == NoMatch
    decreases |pieces|
  {
    hide RenderPiece, WellFormedPiece, Stands, PartLength;
    if pieces == [] {
      cut := Some(([], f));
    } else if f == "" {
      cut := None;
      assert Render(pieces) + p != "";
    } else {
      hide MatchFrom;
      MatchOne(pieces[0], f, Render(pieces[1..]) + p, frac, counter);
      assert Render(pieces) + p == RenderPiece(pieces[0]) + (Render(pieces[1..]) + p);
      var k := PartLength(pieces[0], f, frac);
      if k.None? {
        cut := None;
      } else {
        StandsIff(pieces[0], f, k.value, frac);
        CounterPartIsDigits(pieces[0], f[..k.value], f[k.value..], frac);
        var next := if pieces[0].Counter? then Some(Value(f[..k.value])) else counter;
        var tail := MatchCuts(f[k.value..], pieces[1..], frac, p, next);
        if tail.None? {
          cut := None;
        } else {
          var parts := [f[..k.value]] + tail.value.0;
          assert parts[1..] == tail.value.0;
          cut := Some((parts, tail.value.1));
        }
      }
    }
  }

  /**
   A name matches a pattern of well-formed pieces exactly when it can be cut into parts for them and digits behind them;
   the counter reported is then the value of the last counter part. It never counts as unsupported.
   */
  lemma MatchesIff(f: string, pieces: seq<Piece>, frac: nat, c: Option<nat>)
    requires WellFormed(pieces)
    ensures MatchFrom(f, Render(pieces), frac, None) == Matches(c) <==>
      exists parts: seq<string>, rest: string :: Cut(f, pieces, parts, rest, frac) && AllDigits(rest) && c == CounterOf(pieces, parts, None)
    ensures MatchFrom(f, Render(pieces), frac, None) != Unsupported
  {
    hide WellFormed, Cut, CounterOf, Value;
    assert Render(pieces) + "" == Render(pieces);
    var cut := MatchCuts(f, pieces, frac, "", None);
    if cut.Some? {
      CutMatches(f, pieces, cut.value.0, cut.value.1, frac, "", None);
    }
    forall parts: seq<string>, rest: string | Cut(f, pieces, parts, rest, frac)
      ensures |parts| == |pieces|
      ensures MatchFrom(f, Render(pieces), frac, None) == MatchFrom(rest, "", frac, CounterOf(pieces, parts, None))
    {
      PartsForPieces(f, pieces, parts, rest, frac);
      CutMatches(f, pieces, parts, rest, frac, "", None);
    }
  }

  lemma PartsForPieces(f: string, pieces: seq<Piece>, parts: seq<string>, rest: string, frac: nat)
    requires Cut(f, pieces, parts, rest, frac)
    ensures |parts| == |pieces|
  {
  }

  // ---------------------------------------------------------------------------------------------
  // Patterns that go on with something else
  // ---------------------------------------------------------------------------------------------

  lemma PrecisionReadBack(q: string, b: nat, width: nat) returns (precision: Option<string>)
    requires b <= |q| && ParsePrecision(q, b, width).ok
    ensures precision.Some? ==> AllDigits(precision.value)
    ensures var r, text := ParsePrecision(q, b, width), (if precision.Some? then "." + precision.value else "") + "N";
      r.width == width && b + |text| == r.length && q[b..r.length] == text
  {
    if q[b] == '.' {
      var m := DigitRun(q[b + 1..]);
      precision := Some(q[b + 1..][..m]);
      assert q[b + 1..][..m] == q[b + 1..b + 1 + m];
      DotDigitsN(q, b, m);
    } else {
      precision := None;
      OneCharacter(q, b);
    }
  }

  lemma OneCharacter(q: string, b: nat)
    requires b < |q|
    ensures q[b..b + 1] == [q[b]]
  {
  }

  lemma DotDigitsN(q: string, b: nat, m: nat)
    requires b + m + 1 < |q| && q[b] == '.' && q[b + m + 1] == 'N'
    ensures q[b..b + m + 2] == "." + q[b + 1..b + 1 + m] + "N"
  {
  }

  lemma WidthReadBack(q: string, a: nat, width: nat) returns (digits: string)
    requires a <= |q| && ParseWidth(q, a, width).ok
    ensures AllDigits(digits) && Value(digits) < WORD && a + |digits| <= |q| && q[a..a + |digits|] == digits
    ensures ParseWidth(q, a, width) == ParsePrecision(q, a + |digits|, if digits == "" then width else Value(digits))
  {
    EmptyValue();
    hide Value, ParsePrecision;
    digits := q[a..][..DigitRun(q[a..])];
  }

  /** What is read as a counter placeholder is one: a flag, a width and a precision, each of them optional, and `N`. */
  lemma CounterReadBack(q: string, width: nat) returns (piece: Piece)
    requires ParseCounter(q, width).ok
    ensures piece.Counter? && piece.flag in ["", "0", " ", "+", "-"] && WellFormedPiece(piece)
    ensures var r := ParseCounter(q, width);
      && r.length == |CounterSpec(piece)| && q == CounterSpec(piece) + q[r.length..]
      && r.width == if piece.digits == "" then width else Value(piece.digits)
  {
    hide ParseWidth, ParsePrecision, Value;
    var a := if IsFlag(q[0]) then 1 else 0;
    var flag := q[..a];
    assert flag == "" || flag == [q[0]];
    var digits := WidthReadBack(q, a, width);
    var b := a + |digits|;
    assert digits != "" ==> digits[0] == q[a];
    var precision := PrecisionReadBack(q, b, if digits == "" then width else Value(digits));
    piece := Counter(flag, digits, precision);
    var e := ParseCounter(q, width).length;
    assert q[b..e] == PrecisionText(piece) + "N";
    hide PrecisionText;
    JoinsFour(q, a, b, e);
    assert CounterSpec(piece) == q[..e] by {
      assert flag + digits + PrecisionText(piece) + "N" == flag + digits + (PrecisionText(piece) + "N");
    }
  }

  lemma JoinsFour(q: string, a: nat, b: nat, e: nat)
    requires a <= b <= e <= |q|
    ensures q[..a] + q[a..b] + q[b..e] == q[..e] && q == q[..e] + q[e..]
  {
  }

  /** Text behind a percent sign that is no placeholder. */
  ghost predicate NoPlaceholder(q: string)
  {
    && q != "" && q[0] != '%' && q[0] !in "SMHdmyYf"
    && forall piece: Piece :: piece.Counter? && WellFormedPiece(piece) ==> !(CounterSpec(piece) <= q)
  }

  lemma NotACounter(q: string)
    requires NoPlaceholder(q)
    ensures !ParseCounter(q, 0).ok
  {
    hide ParseCounter, WellFormedPiece;
    if ParseCounter(q, 0).ok {
      var piece := CounterReadBack(q, 0);
    }
  }

  /**
   A pattern that goes on with an unsupported placeholder: the match ends with that error exactly for the names that have text
   left there, and fails for all others.
   */
  lemma UnsupportedIff(f: string, pieces: seq<Piece>, q: string, frac: nat)
    requires WellFormed(pieces) && NoPlaceholder(q)
    ensures var m := MatchFrom(f, Render(pieces) + ("%" + q), frac, None);
      && (m == Unsupported <==> exists parts: seq<string>, rest: string :: Cut(f, pieces, parts, rest, frac) && rest != "")
      && (m == Unsupported || m == NoMatch)
  {
    hide WellFormed, Cut, Value;
    NotACounter(q);
    hide ParseCounter, NoPlaceholder;
    var cut := MatchCuts(f, pieces, frac, "%" + q, None);
    if cut.Some? {
      PartsForPieces(f, pieces, cut.value.0, cut.value.1, frac);
      CutMatches(f, pieces, cut.value.0, cut.value.1, frac, "%" + q, None);
      StopsAtUnsupported(cut.value.1, q, frac, CounterOf(pieces, cut.value.0, None));
    }
    forall parts: seq<string>, rest: string | Cut(f, pieces, parts, rest, frac) && rest != ""
      ensures MatchFrom(f, Render(pieces) + ("%" + q), frac, None) == Unsupported
    {
      PartsForPieces(f, pieces, parts, rest, frac);
      CutMatches(f, pieces, parts, rest, frac, "%" + q, None);
      StopsAtUnsupported(rest, q, frac, CounterOf(pieces, parts, None));
    }
  }

  lemma StopsAtUnsupported(rest: string, q: string, frac: nat, counter: Option<nat>)
    requires NoPlaceholder(q) && !ParseCounter(q, 0).ok
    ensures MatchFrom(rest, "%" + q, frac, counter) == if rest == "" then NoMatch else Unsupported
  {
    var p := "%" + q;
    assert p[1] == q[0] && p[1..] == q;
  }

  /** A percent sign at the end of a pattern: the name matches when digits, and at least one, are left for it. */
  lemma LonePercentIff(f: string, pieces: seq<Piece>, frac: nat, c: Option<nat>)
    requires WellFormed(pieces)
    ensures MatchFrom(f, Render(pieces) + "%", frac, None) == Matches(c) <==>
      exists parts: seq<string>, rest: string ::
        Cut(f, pieces, parts, rest, frac) && rest != "" && AllDigits(rest) && c == CounterOf(pieces, parts, None)
  {
    hide WellFormed, Cut, CounterOf, Value;
    var cut := MatchCuts(f, pieces, frac, "%", None);
    if cut.Some? {
      CutMatches(f, pieces, cut.value.0, cut.value.1, frac, "%", None);
    }
    forall parts: seq<string>, rest: string | Cut(f, pieces, parts, rest, frac)
      ensures |parts| == |pieces|
      ensures MatchFrom(f, Render(pieces) + "%", frac, None) == MatchFrom(rest, "%", frac, CounterOf(pieces, parts, None))
    {
      PartsForPieces(f, pieces, parts, rest, frac);
      CutMatches(f, pieces, parts, rest, frac, "%", None);
    }
  }
}
