/**
 Log file names (src/text_file_backend.cpp): the pattern is split into a counter and date/time placeholders, names
 are generated from it, and names found in the storage are matched against it to recover the file counter.
 */
module FileNames {
  import opened Wrappers
  import opened Digits

  predicate IsFlag(c: char)
  {
    c == '0' || c == ' ' || c == '+' || c == '-'
  }

  predicate IsDateKind(c: char)
  {
    c == 'S' || c == 'M' || c == 'H' || c == 'd' || c == 'm' || c == 'y' || c == 'Y' || c == 'f'
  }

  /** Digits a date/time placeholder stands for; that of fractional seconds depends on the build (`frac`). */
  function DateWidth(kind: char, frac: nat): (n: nat)
  {
    if kind == 'Y' then 4 else if kind == 'f' then frac else 2
  }

  // ---------------------------------------------------------------------------------------------
  // Counter placeholders
  // ---------------------------------------------------------------------------------------------

  /** What `parse_counter_placeholder` reports: success, the characters read, and the width variable afterwards. */
  datatype Placeholder = Placeholder(ok: bool, length: nat, width: nat)

  /** The text behind the percent sign, read as flag, width, precision and `N`. */
  function ParseCounter(p: string, width: nat): (r: Placeholder)
    ensures r.ok ==> 0 < r.length <= |p|
  {
    var a := if p != "" && IsFlag(p[0]) then 1 else 0;
    ParseWidth(p, a, width)
  }

  function ParseWidth(p: string, a: nat, width: nat): (r: Placeholder)
    requires a <= |p|
    ensures r.ok ==> 0 < r.length <= |p|
  {
    if a == |p| then Placeholder(false, 0, width)
    else
      var n := DigitRun(p[a..]);
      var digits := p[a..][..n];
      if n > 0 && Value(digits) >= WORD then Placeholder(false, 0, width)
      else ParsePrecision(p, a + n, if n > 0 then Value(digits) else width)
  }

  function ParsePrecision(p: string, b: nat, width: nat): (r: Placeholder)
    requires b <= |p|
    ensures r.ok ==> 0 < r.length <= |p|
  {
    if b == |p| then Placeholder(false, 0, width)
    else
      var e := if p[b] == '.' then b + 1 + DigitRun(p[b + 1..]) else b;
      if e < |p| && p[e] == 'N' then Placeholder(true, e + 1, width) else Placeholder(false, 0, width)
  }

  // ---------------------------------------------------------------------------------------------
  // Matching
  // ---------------------------------------------------------------------------------------------

  datatype Match = NoMatch | Unsupported | Matches(counter: Option<nat>)

  /** Both sides are used up, up to digits a name clash may have added. */
  function Ending(f: string, p: string, counter: Option<nat>): (m: Match)
  {
    if p == "" && AllDigits(f) then Matches(counter) else NoMatch
  }

  /** The name `f` against the pattern `p`; `counter` is the last file counter read so far. */
  function MatchFrom(f: string, p: string, frac: nat, counter: Option<nat>): (m: Match)
    decreases |p|
  {
    if f == "" || p == "" then Ending(f, p, counter)
    else if p[0] != '%' then
      if f[0] == p[0] then MatchFrom(f[1..], p[1..], frac, counter) else NoMatch
    else if |p| == 1 then Ending(f, "", counter)
    else if p[1] == '%' then
      if f[0] == '%' then MatchFrom(f[1..], p[2..], frac, counter) else NoMatch
    else if IsDateKind(p[1]) then
      var w := DateWidth(p[1], frac);
      if DigitRun(f) >= w then MatchFrom(f[w..], p[2..], frac, counter) else NoMatch
    else
      var c := ParseCounter(p[1..], 0);
      if !c.ok then Unsupported
      else
        var n := DigitRun(f);
        if n < c.width || n == 0 || Value(f[..n]) >= WORD then NoMatch
        else MatchFrom(f[n..], p[1 + c.length..], frac, Some(Value(f[..n])))
  }

  // ---------------------------------------------------------------------------------------------
  // Generation
  // ---------------------------------------------------------------------------------------------

  /** The split of a pattern: where the counter placeholder was, its width, and how many others there are. */
  datatype Split = Split(found: bool, pos: nat, length: nat, width: nat, placeholders: nat)

  /** Placeholders in the rest of a pattern. */
  function CountPlaceholders(p: string): (n: nat)
    decreases |p|
  {
    if |p| < 2 then 0
    else if p[0] != '%' then CountPlaceholders(p[1..])
    else if p[1] == '%' then CountPlaceholders(p[2..])
    else 1 + CountPlaceholders(p[1..])
  }

  /** The first counter placeholder of a pattern. */
  function SplitPattern(p: string, width: nat): (s: Split)
    ensures s.found ==> s.pos + s.length <= |p|
    decreases |p|
  {
    if |p| < 2 then Split(false, 0, 0, width, 0)
    else if p[0] != '%' then
      var s := SplitPattern(p[1..], width);
      s.(pos := s.pos + 1)
    else if p[1] == '%' then
      var s := SplitPattern(p[2..], width);
      s.(pos := s.pos + 2)
    else
      var c := ParseCounter(p[1..], width);
      if c.ok then Split(true, 0, 1 + c.length, c.width, CountPlaceholders(p[1 + c.length..]))
      else
        var s := SplitPattern(p[1..], c.width);
        s.(pos := s.pos + 1, placeholders := s.placeholders + 1)
  }

  function CounterText(n: nat, width: nat): (s: string)
    ensures AllDigits(s) && s != "" && |s| >= width && Value(s) == n
  {
    ZeroFilled(Decimal(n), width)
  }

  /** Date/time formatting: `clock` gives the digits of each placeholder. */
  function FormatDates(p: string, clock: char -> string): (s: string)
    decreases |p|
  {
    if p == "" then ""
    else if p[0] != '%' || |p| == 1 then [p[0]] + FormatDates(p[1..], clock)
    else if p[1] == '%' then "%" + FormatDates(p[2..], clock)
    else if IsDateKind(p[1]) then clock(p[1]) + FormatDates(p[2..], clock)
    else "%" + FormatDates(p[1..], clock)
  }

  /** The file name generated from a pattern for a counter value. */
  function GenerateName(p: string, clock: char -> string, counter: nat): (s: string)
  {
    var split := SplitPattern(p, 0);
    var name :=
      if split.found then p[..split.pos] + CounterText(counter, split.width) + p[split.pos + split.length..] else p;
    if split.placeholders > 0 then FormatDates(name, clock) else name
  }

  // ---------------------------------------------------------------------------------------------
  // Patterns built from supported pieces
  // ---------------------------------------------------------------------------------------------

  datatype Piece =
    | Text(c: char)
    | Percent
    | Date(kind: char)
    | Counter(flag: string, digits: string, precision: Option<string>)

  predicate WellFormedPiece(piece: Piece)
  {
    match piece
    case Text(c) => c != '%'
    case Percent => true
    case Date(kind) => IsDateKind(kind)
    case Counter(flag, digits, precision) =>
      && (flag == "" || (|flag| == 1 && IsFlag(flag[0])))
      && AllDigits(digits) && Value(digits) < WORD
      && (flag == "" && digits != "" ==> digits[0] != '0')
      && (precision.Some? ==> AllDigits(precision.value))
  }

  predicate WellFormed(pieces: seq<Piece>)
  {
    forall i :: 0 <= i < |pieces| ==> WellFormedPiece(pieces[i])
  }

  predicate NoCounter(pieces: seq<Piece>)
  {
    forall i :: 0 <= i < |pieces| ==> !pieces[i].Counter?
  }

  predicate HasDate(pieces: seq<Piece>)
  {
    exists i :: 0 <= i < |pieces| && pieces[i].Date?
  }

  predicate HasPercent(pieces: seq<Piece>)
  {
    exists i :: 0 <= i < |pieces| && pieces[i].Percent?
  }

  function PrecisionText(piece: Piece): (s: string)
    requires piece.Counter?
  {
    if piece.precision.Some? then "." + piece.precision.value else ""
  }

  function CounterSpec(piece: Piece): (s: string)
    requires piece.Counter?
  {
    piece.flag + piece.digits + PrecisionText(piece) + "N"
  }

  function RenderPiece(piece: Piece): (s: string)
    ensures s != ""
  {
    match piece
    case Text(c) => [c]
    case Percent => "%%"
    case Date(kind) => ['%', kind]
    case Counter(_, _, _) => "%" + CounterSpec(piece)
  }

  /** The pattern text. */
  function Render(pieces: seq<Piece>): (s: string)
  {
    if pieces == [] then "" else RenderPiece(pieces[0]) + Render(pieces[1..])
  }

  /** What a piece becomes in a file name. Without date/time formatting an escaped percent sign stays doubled. */
  function NamePiece(piece: Piece, dated: bool, clock: char -> string, counter: nat): (s: string)
    requires WellFormedPiece(piece)
  {
    match piece
    case Text(c) => [c]
    case Percent => if dated then "%" else "%%"
    case Date(kind) => clock(kind)
    case Counter(_, digits, _) => CounterText(counter, Value(digits))
  }

  function Name(pieces: seq<Piece>, dated: bool, clock: char -> string, counter: nat): (s: string)
    requires WellFormed(pieces)
  {
    if pieces == [] then "" else NamePiece(pieces[0], dated, clock, counter) + Name(pieces[1..], dated, clock, counter)
  }

  ghost predicate ClockOk(clock: char -> string, frac: nat)
  {
    && frac > 0
    && forall kind :: IsDateKind(kind) ==> AllDigits(clock(kind)) && |clock(kind)| == DateWidth(kind, frac)
  }
}
