/** The scanning loops of the file name code (src/text_file_backend.cpp), proved against the functions of FileNames. */
module FileNameScan {
  import opened Wrappers
  import opened Digits
  import opened FileNames

  /** `scan_digits`: the next `n` characters are digits. */
  method ScanDigits(s: string, it: nat, n: nat) returns (ok: bool, next: nat)
    requires it <= |s|
    ensures ok <==> DigitRun(s[it..]) >= n
    ensures ok ==> next == it + n
    ensures next <= |s|
  {
    next := it;
    var left := n;
    while left > 0
      invariant it <= next <= |s| && 0 <= left <= n && next == it + (n - left)
      invariant DigitRun(s[it..]) == (n - left) + DigitRun(s[next..])
    {
      if next == |s| {
        return false, next;
      }
      DigitRunStep(s, next);
      if !IsDigit(s[next]) {
        return false, next + 1;
      }
      next := next + 1;
      left := left - 1;
    }
    ok := true;
  }

  /** `parse_counter_placeholder`, from the character behind the percent sign on. */
  method ParseCounterPlaceholder(p: string, start: nat, width0: nat) returns (ok: bool, it: nat, width: nat)
    requires start <= |p|
    ensures ok == ParseCounter(p[start..], width0).ok
    ensures width == ParseCounter(p[start..], width0).width
    ensures ok ==> it == start + ParseCounter(p[start..], width0).length
  {
    ghost var q := p[start..];
    ok, it, width := false, start, width0;
    if it == |p| {
      return;
    }
    if IsFlag(p[it]) {
      it := it + 1;
    }
    ok, it, width := ParseFromWidth(p, start, it - start, width0);
  }

  method ParseFromWidth(p: string, start: nat, a: nat, width0: nat) returns (ok: bool, it: nat, width: nat)
    requires start + a <= |p|
    ensures ok == ParseWidth(p[start..], a, width0).ok
    ensures width == ParseWidth(p[start..], a, width0).width
    ensures ok ==> it == start + ParseWidth(p[start..], a, width0).length
  {
    hide ParsePrecision;
    ok, it, width := false, start + a, width0;
    if it == |p| {
      return;
    }
    ghost var q := p[start..];
    assert q[a..] == p[it..];
    if IsDigit(p[it]) {
      DigitRunStep(p, it);
      var end := SkipDigits(p, it);
      assert q[a..][..end - it] == p[it..end];
      var value := ExtractUint(p, it, end);
      if value.None? {
        return;
      }
      width := value.value;
      it := end;
    } else {
      DigitRunStep(p, it);
    }
    ok, it := ParseFromPrecision(p, start, it - start, width);
  }

  method ParseFromPrecision(p: string, start: nat, b: nat, width: nat) returns (ok: bool, it: nat)
    requires start + b <= |p|
    ensures ok == ParsePrecision(p[start..], b, width).ok
    ensures ParsePrecision(p[start..], b, width).width == width
    ensures ok ==> it == start + ParsePrecision(p[start..], b, width).length
  {
    ok, it := false, start + b;
    if it == |p| {
      return;
    }
    ghost var q := p[start..];
    assert q[b] == p[it];
    if p[it] == '.' {
      assert q[b + 1..] == p[it + 1..];
      it := SkipDigits(p, it + 1);
      if it == |p| {
        return;
      }
    }
    assert q[it - start] == p[it];
    if p[it] == 'N' {
      ok, it := true, it + 1;
    }
  }

  /** One placeholder of the match: the state after it, or the verdict. */
  datatype Step = Next(i: nat, j: nat, counter: Option<nat>) | Stop(m: Match)

  /** The switch on the placeholder character behind a percent sign. */
  method MatchPlaceholder(f: string, p: string, i: nat, j: nat, frac: nat, counter: Option<nat>) returns (s: Step)
    requires i < |f| && j + 1 < |p| && p[j] == '%'
    ensures s.Stop? ==> s.m == MatchFrom(f[i..], p[j..], frac, counter)
    ensures s.Next? ==> i <= s.i <= |f| && j + 1 < s.j <= |p|
    ensures s.Next? ==> MatchFrom(f[s.i..], p[s.j..], frac, s.counter) == MatchFrom(f[i..], p[j..], frac, counter)
  {
    hide ParseCounter, Value, DigitRun, Ending;
    var c := p[j + 1];
    ghost var g, q := f[i..], p[j..];
    assert g[0] == f[i] && q[0] == '%' && q[1] == c;
    if c == '%' {
      if f[i] == '%' {
        assert g[1..] == f[i + 1..] && q[2..] == p[j + 2..];
        s := Next(i + 1, j + 2, counter);
      } else {
        s := Stop(NoMatch);
      }
    } else if IsDateKind(c) {
      var ok, next := ScanDigits(f, i, DateWidth(c, frac));
      if ok {
        assert g[DateWidth(c, frac)..] == f[next..] && q[2..] == p[j + 2..];
        s := Next(next, j + 2, counter);
      } else {
        s := Stop(NoMatch);
      }
    } else {
      assert q[1..] == p[j + 1..];
      var ok, next, width := ParseCounterPlaceholder(p, j + 1, 0);
      if !ok {
        return Stop(Unsupported);
      }
      var wide, at := ScanDigits(f, i, width);
      if !wide {
        return Stop(NoMatch);
      }
      s := MatchCounter(f, p, i, j, next, frac, counter);
    }
  }

  /** The counter digits, of which there are known to be enough. */
  method MatchCounter(f: string, p: string, i: nat, j: nat, next: nat, frac: nat, counter: Option<nat>) returns (s: Step)
    requires i < |f| && j + 1 < |p| && p[j] == '%' && p[j + 1] != '%' && !IsDateKind(p[j + 1])
    requires ParseCounter(p[j + 1..], 0).ok && next == j + 1 + ParseCounter(p[j + 1..], 0).length
    requires DigitRun(f[i..]) >= ParseCounter(p[j + 1..], 0).width
    ensures s.Stop? ==> s.m == MatchFrom(f[i..], p[j..], frac, counter)
    ensures s.Next? ==> i <= s.i <= |f| && s.j == next
    ensures s.Next? ==> MatchFrom(f[s.i..], p[s.j..], frac, s.counter) == MatchFrom(f[i..], p[j..], frac, counter)
  {
    hide ParseCounter, Value, DigitRun, Ending;
    ghost var g, q := f[i..], p[j..];
    assert q[1..] == p[j + 1..] && q[0] == '%' && q[1] == p[j + 1];
    assert q[next - j..] == p[next..];
    var end := SkipDigits(f, i);
    assert g[..end - i] == f[i..end] && g[end - i..] == f[end..];
    var value := ExtractUint(f, i, end);
    s := if value.None? then Stop(NoMatch) else Next(end, next, value);
  }

  /** `match_pattern`. */
  method MatchPattern(f: string, p: string, frac: nat) returns (m: Match)
    ensures m == MatchFrom(f, p, frac, None)
  {
    var i, j := 0, 0;
    var counter: Option<nat> := None;
    assert f[0..] == f && p[0..] == p;
    while i < |f| && j < |p|
      invariant 0 <= i <= |f| && 0 <= j <= |p|
      invariant MatchFrom(f, p, frac, None) == MatchFrom(f[i..], p[j..], frac, counter)
      decreases |p| - j
    {
      if p[j] != '%' {
        assert f[i..][0] == f[i] && p[j..][0] == p[j];
        if p[j] != f[i] {
          return NoMatch;
        }
        assert f[i..][1..] == f[i + 1..] && p[j..][1..] == p[j + 1..];
        i, j := i + 1, j + 1;
      } else if j + 1 == |p| {
        // A lone percent sign ends the pattern: the loop stops with the placeholder outstanding.
        assert p[j..] == "%";
        ghost var whole := MatchFrom(f[i..], p[j..], frac, counter);
        j := j + 1;
        assert p[j..] == "";
        assert whole == MatchFrom(f[i..], p[j..], frac, counter);
      } else {
        hide MatchFrom;
        var step := MatchPlaceholder(f, p, i, j, frac, counter);
        if step.Stop? {
          return step.m;
        }
        i, j, counter := step.i, step.j, step.counter;
      }
    }
    if j == |p| {
      if i != |f| {
        var digits, end := ScanDigits(f, i, |f| - i);
        assert AllDigits(f[i..]) ==> DigitRun(f[i..]) == |f| - i by {
          if AllDigits(f[i..]) {
            assert f[i..][..|f| - i] == f[i..];
            DigitRunIs(f[i..], |f| - i);
          }
        }
        assert digits ==> f[i..][..|f| - i] == f[i..];
        m := if digits then Matches(counter) else NoMatch;
      } else {
        m := Matches(counter);
      }
    } else {
      m := NoMatch;
    }
  }

  // ---------------------------------------------------------------------------------------------
  // Splitting the pattern
  // ---------------------------------------------------------------------------------------------

  /** `s` is the split seen from `chars` characters and `others` placeholders before where `t` is seen from. */
  predicate Sees(s: Split, t: Split, chars: nat, others: nat)
  {
    && s.found == t.found && s.width == t.width && s.placeholders == t.placeholders + others
    && (s.found ==> s.pos == t.pos + chars && s.length == t.length)
  }

  lemma {:induction false} SkipText(p: string, it: nat, next: nat, width: nat)
    requires it <= next <= |p| && forall k :: it <= k < next ==> p[k] != '%'
    ensures Sees(SplitPattern(p[it..], width), SplitPattern(p[next..], width), next - it, 0)
    ensures CountPlaceholders(p[it..]) == CountPlaceholders(p[next..])
    decreases next - it
  {
    if it < next {
      SkipText(p, it + 1, next, width);
      assert p[it..][0] == p[it] && p[it..][1..] == p[it + 1..];
    }
  }

  /** The rest of a pattern at a percent sign. */
  lemma SplitAt(p: string, it: nat, width: nat)
    requires it + 1 < |p| && p[it] == '%'
    ensures p[it + 1] == '%' ==> Sees(SplitPattern(p[it..], width), SplitPattern(p[it + 2..], width), 2, 0)
    ensures p[it + 1] == '%' ==> CountPlaceholders(p[it..]) == CountPlaceholders(p[it + 2..])
    ensures p[it + 1] != '%' ==> CountPlaceholders(p[it..]) == 1 + CountPlaceholders(p[it + 1..])
    ensures p[it + 1] != '%' ==>
      var c := ParseCounter(p[it + 1..], width);
      if c.ok then SplitPattern(p[it..], width)
                == Split(true, 0, 1 + c.length, c.width, CountPlaceholders(p[it + 1 + c.length..]))
      else Sees(SplitPattern(p[it..], width), SplitPattern(p[it + 1..], c.width), 1, 1)
  {
    hide ParseCounter;
    var q := p[it..];
    assert q[0] == '%' && q[1] == p[it + 1] && q[1..] == p[it + 1..] && q[2..] == p[it + 2..];
    if p[it + 1] != '%' {
      var c := ParseCounter(p[it + 1..], width);
      if c.ok {
        assert q[1 + c.length..] == p[it + 1 + c.length..];
      }
    }
  }

  lemma SplitAtEnd(p: string, it: nat, width: nat)
    requires |p| <= it + 1 && it <= |p|
    ensures !SplitPattern(p[it..], width).found && SplitPattern(p[it..], width).placeholders == 0
    ensures SplitPattern(p[it..], width).width == width && CountPlaceholders(p[it..]) == 0
  {
  }

  method FindPercent(s: string, it: nat) returns (next: nat)
    requires it <= |s|
    ensures it <= next <= |s| && forall k :: it <= k < next ==> s[k] != '%'
    ensures next < |s| ==> s[next] == '%'
  {
    next := it;
    while next < |s| && s[next] != '%'
      invariant it <= next <= |s| && forall k :: it <= k < next ==> s[k] != '%'
    {
      next := next + 1;
    }
  }

  /** The loop up to the counter placeholder, if there is one: `it` is the place behind it. */
  method FindCounter(p: string) returns (found: bool, pos: nat, it: nat, width: nat, others: nat)
    ensures found == SplitPattern(p, 0).found && width == SplitPattern(p, 0).width
    ensures !found ==> others == SplitPattern(p, 0).placeholders
    ensures found ==> pos == SplitPattern(p, 0).pos && it == pos + SplitPattern(p, 0).length <= |p|
    ensures found ==> SplitPattern(p, 0).placeholders == others + CountPlaceholders(p[it..])
  {
    hide ParseCounter, CountPlaceholders, SplitPattern;
    found, pos, it, width, others := false, 0, 0, 0, 0;
    assert p[0..] == p;
    while true
      invariant it <= |p|
      invariant Sees(SplitPattern(p, 0), SplitPattern(p[it..], width), it, others)
      decreases |p| - it
    {
      var percent := FindPercent(p, it);
      SkipText(p, it, percent, width);
      it := percent;
      if it == |p| || it + 1 == |p| {
        SplitAtEnd(p, it, width);
        break;
      }
      SplitAt(p, it, width);
      if p[it + 1] == '%' {
        it := it + 2;
      } else {
        var ok, next, w := ParseCounterPlaceholder(p, it + 1, width);
        width := w;
        if ok {
          found, pos, it := true, it, next;
          break;
        }
        others := others + 1;
        it := it + 1;
      }
    }
  }

  /** The loop behind the counter placeholder: only other placeholders are counted. */
  method CountOthers(name: string, start: nat) returns (n: nat)
    requires start <= |name|
    ensures n == CountPlaceholders(name[start..])
  {
    hide CountPlaceholders, SplitPattern, ParseCounter;
    n := 0;
    var it := start;
    while true
      invariant 0 <= it <= |name|
      invariant CountPlaceholders(name[start..]) == n + CountPlaceholders(name[it..])
      decreases |name| - it
    {
      var percent := FindPercent(name, it);
      SkipText(name, it, percent, 0);
      it := percent;
      if it == |name| || it + 1 == |name| {
        SplitAtEnd(name, it, 0);
        break;
      }
      SplitAt(name, it, 0);
      if name[it + 1] == '%' {
        it := it + 2;
      } else {
        n := n + 1;
        it := it + 1;
      }
    }
  }

  /** `parse_file_name_pattern` and the generator it builds, applied to one counter value. */
  method NameFromPattern(p: string, clock: char -> string, counter: nat) returns (name: string)
    ensures name == GenerateName(p, clock, counter)
  {
    hide SplitPattern, CounterText, FormatDates, CountPlaceholders;
    var found, pos, it, width, others := FindCounter(p);
    name := p;
    if found {
      name := p[..pos] + p[it..];
      var more := CountOthers(name, pos);
      assert name[pos..] == p[it..];
      others := others + more;
      name := name[..pos] + CounterText(counter, width) + name[pos..];
      assert name == p[..pos] + CounterText(counter, width) + p[it..];
    }
    if others > 0 {
      name := FormatDates(name, clock);
    }
  }

  /** The search for an unused name on a clash: five digits or more are appended. */
  method FreeName(name: string, existing: set<string>) returns (r: Option<string>)
    ensures name !in existing ==> r == Some(name)
    ensures r.Some? && name in existing ==>
      exists n :: 0 <= n < WORD && r.value == name + CounterText(n, 5) && r.value !in existing
              && forall m :: 0 <= m < n ==> name + CounterText(m, 5) in existing
    ensures r.None? ==> forall m :: 0 <= m < WORD ==> name + CounterText(m, 5) in existing
  {
    if name !in existing {
      return Some(name);
    }
    var n := 0;
    while true
      invariant 0 <= n < WORD
      invariant forall m :: 0 <= m < n ==> name + CounterText(m, 5) in existing
      decreases WORD - n
    {
      var alternative := name + CounterText(n, 5);
      if alternative !in existing {
        return Some(alternative);
      }
      if n == WORD - 1 {
        return None;
      }
      n := n + 1;
    }
  }
}
