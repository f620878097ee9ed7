/** The loop of `parse_format` (src/format_parser.cpp), proved against FormatText. */
module FormatParser {
  import opened Wrappers
  import opened Digits
  import opened FormatText

  /** An element of a format description: a range of its literal characters, or an argument. */
  datatype Element = Literal(start: nat, length: nat) | Positional(index: nat)

  datatype Description = Description(chars: string, elements: seq<Element>)

  datatype Parsed = Ok(description: Description) | Error(error: FormatText.Error, position: nat)

  /** Characters the literal elements cover. */
  function Covered(elements: seq<Element>): (n: nat)
  {
    if elements == [] then 0
    else
      var last := elements[|elements| - 1];
      Covered(elements[..|elements| - 1]) + (if last.Literal? then last.length else 0)
  }

  /** Each literal element begins where the ones before it end, and is not empty. */
  predicate Tiled(elements: seq<Element>)
  {
    if elements == [] then true
    else
      var front, last := elements[..|elements| - 1], elements[|elements| - 1];
      Tiled(front) && (last.Literal? ==> last.start == Covered(front) && last.length > 0)
  }

  /** The parts an element list stands for. */
  function Meaning(chars: string, elements: seq<Element>): (parts: seq<Part>)
    requires Tiled(elements) && Covered(elements) <= |chars|
  {
    if elements == [] then []
    else
      var front, last := elements[..|elements| - 1], elements[|elements| - 1];
      Meaning(chars, front) +
      [if last.Literal? then Chars(chars[last.start..last.start + last.length]) else Argument(last.index)]
  }

  lemma {:induction false} MeaningGrows(chars: string, more: string, elements: seq<Element>)
    requires Tiled(elements) && Covered(elements) <= |chars|
    ensures Meaning(chars + more, elements) == Meaning(chars, elements)
    decreases |elements|
  {
    if elements != [] {
      var last := elements[|elements| - 1];
      MeaningGrows(chars, more, elements[..|elements| - 1]);
      if last.Literal? {
        assert (chars + more)[last.start..last.start + last.length] == chars[last.start..last.start + last.length];
      }
    }
  }

  /** Appends the literal collected since `start`, if there is any. */
  function FlushedElements(chars: string, elements: seq<Element>, start: nat): (r: seq<Element>)
    requires start <= |chars|
  {
    if start < |chars| then elements + [Literal(start, |chars| - start)] else elements
  }

  lemma FlushMeans(chars: string, elements: seq<Element>, start: nat)
    requires Tiled(elements) && Covered(elements) == start <= |chars|
    ensures var r := FlushedElements(chars, elements, start);
      && Tiled(r) && Covered(r) == |chars|
      && Meaning(chars, r) == Meaning(chars, elements) + Flushed(chars[start..])
  {
    var r := FlushedElements(chars, elements, start);
    if start < |chars| {
      assert r[..|elements|] == elements;
      assert chars[start..|chars|] == chars[start..];
    }
  }

  lemma ArgumentMeans(chars: string, elements: seq<Element>, index: nat)
    requires Tiled(elements) && Covered(elements) <= |chars|
    ensures var r := elements + [Positional(index)];
      && Tiled(r) && Covered(r) == Covered(elements)
      && Meaning(chars, r) == Meaning(chars, elements) + [Argument(index)]
  {
    assert (elements + [Positional(index)])[..|elements|] == elements;
  }

  /** What remains to be read, put behind the elements found so far. */
  ghost predicate Continues(whole: Read, s: string, p: nat, chars: string, elements: seq<Element>, start: nat)
    requires p <= |s|
  {
    && Tiled(elements) && Covered(elements) == start <= |chars|
    && whole == Prefixed(Meaning(chars, elements), ReadFrom(s, p, chars[start..]))
  }

  lemma AddChar(whole: Read, s: string, p: nat, q: nat, chars: string, elements: seq<Element>, start: nat, c: char)
    requires p <= |s| && q <= |s| && Continues(whole, s, p, chars, elements, start)
    requires ReadFrom(s, p, chars[start..]) == ReadFrom(s, q, chars[start..] + [c])
    ensures Continues(whole, s, q, chars + [c], elements, start)
  {
    hide ReadFrom, Meaning;
    MeaningGrows(chars, [c], elements);
    assert (chars + [c])[start..] == chars[start..] + [c];
  }

  lemma AddArgument(whole: Read, s: string, p: nat, chars: string, elements: seq<Element>, start: nat)
    requires p + 1 < |s| && s[p] == '%' && s[p + 1] != '%' && Continues(whole, s, p, chars, elements, start)
    ensures ReadArgument(s, p).Bad? ==> whole == Failed(ReadArgument(s, p).error, p)
    ensures ReadArgument(s, p).Found? ==>
      Continues(whole, s, ReadArgument(s, p).next, chars,
                FlushedElements(chars, elements, start) + [Positional(ReadArgument(s, p).index)], |chars|)
  {
    var a := ReadArgument(s, p);
    FlushMeans(chars, elements, start);
    hide ReadArgument, FlushedElements, Meaning, Tiled, Covered;
    var m := Meaning(chars, elements);
    if a.Found? {
      var flushed := FlushedElements(chars, elements, start);
      ArgumentMeans(chars, flushed, a.index);
      assert chars[|chars|..] == "";
      ReadsArgument(s, p, chars[start..]);
      PrefixedTwice(m, Flushed(chars[start..]), a.index, ReadFrom(s, a.next, ""));
    } else {
      ReadsArgument(s, p, chars[start..]);
    }
  }

  lemma ReadsArgument(s: string, p: nat, literal: string)
    requires p + 1 < |s| && s[p] == '%' && s[p + 1] != '%'
    ensures var a := ReadArgument(s, p);
      ReadFrom(s, p, literal) == if a.Bad? then Failed(a.error, p)
                                 else Prefixed(Flushed(literal) + [Argument(a.index)], ReadFrom(s, a.next, ""))
  {
    hide ReadArgument;
  }

  lemma PrefixedTwice(m: seq<Part>, f: seq<Part>, index: nat, r: Read)
    ensures Prefixed(m, Prefixed(f + [Argument(index)], r)) == Prefixed(m + f + [Argument(index)], r)
  {
    if r.Parts? {
      assert m + (f + [Argument(index)] + r.parts) == m + f + [Argument(index)] + r.parts;
    }
  }

  /** The digits of a positional argument; the closing percent sign and the range are checked. */
  method ParseArgument(s: string, p: nat) returns (r: ArgumentRead)
    requires p + 1 < |s|
    ensures r == ReadArgument(s, p)
  {
    hide Value;
    if !IsDigit(s[p + 1]) || s[p + 1] == '0' {
      return Bad(Syntax);
    }
    var q := SkipDigits(s, p + 1);
    assert s[p + 1..][..q - p - 1] == s[p + 1..q];
    var n := ExtractUint(s, p + 1, q);
    if n.None? || n.value == 0 || q == |s| || s[q] != '%' {
      return Bad(Syntax);
    }
    if n.value > 1000 {
      return Bad(TooLarge);
    }
    r := Found(n.value - 1, q + 1);
  }

  /** A parse of any text: what the description means, and that its literal elements tile the literal characters. */
  ghost predicate Describes(r: Parsed, whole: Read)
  {
    match r
    case Ok(d) => Tiled(d.elements) && Covered(d.elements) == |d.chars| && whole == Parts(Meaning(d.chars, d.elements))
    case Error(error, position) => whole == Failed(error, position)
  }

  /** `parse_format`. */
  method ParseFormat(s: string) returns (r: Parsed)
    ensures Describes(r, ReadFrom(s, 0, ""))
  {
    hide ReadFrom, Meaning, Tiled, Covered, ReadArgument, FlushedElements;
    var chars, elements, start := "", [], 0;
    var p := 0;
    ghost var whole := ReadFrom(s, 0, "");
    StartContinues(s);
    while p < |s|
      invariant 0 <= p <= |s| && 0 <= start
      invariant Continues(whole, s, p, chars, elements, start)
      decreases |s| - p
    {
      if s[p] != '%' {
        OneCharReads(s, p, s[p], chars[start..]);
        AddChar(whole, s, p, p + 1, chars, elements, start, s[p]);
        chars := chars + [s[p]];
        p := p + 1;
      } else if p + 1 == |s| {
        LonePercentReads(s, chars[start..]);
        AddChar(whole, s, p, p + 1, chars, elements, start, '%');
        chars := chars + ['%'];
        p := p + 1;
      } else if s[p + 1] == '%' {
        OneCharReads(s, p, '%', chars[start..]);
        AddChar(whole, s, p, p + 2, chars, elements, start, '%');
        chars := chars + ['%'];
        p := p + 2;
      } else {
        AddArgument(whole, s, p, chars, elements, start);
        elements := FlushedElements(chars, elements, start);
        start := |chars|;
        var argument := ParseArgument(s, p);
        if argument.Bad? {
          return Error(argument.error, p);
        }
        elements := elements + [Positional(argument.index)];
        p := argument.next;
      }
    }
    FlushMeans(chars, elements, start);
    EndReads(s, chars[start..]);
    r := Ok(Description(chars, FlushedElements(chars, elements, start)));
  }

  lemma StartContinues(s: string)
    ensures Continues(ReadFrom(s, 0, ""), s, 0, "", [], 0)
  {
    var r := ReadFrom(s, 0, "");
    assert ""[0..] == "";
    assert r.Parts? ==> [] + r.parts == r.parts;
  }

  lemma LonePercentReads(s: string, literal: string)
    requires s != "" && s[|s| - 1] == '%'
    ensures ReadFrom(s, |s| - 1, literal) == ReadFrom(s, |s|, literal + ['%'])
  {
  }

  /** A format written from literals and arguments up to 999 parses to them, with adjacent literals joined. */
  lemma WriteThenParse(parts: seq<Part>, r: Parsed)
    requires ArgumentsFit(parts) && Describes(r, ReadFrom(Write(parts), 0, ""))
    ensures r.Ok? && Tiled(r.description.elements) && Covered(r.description.elements) == |r.description.chars|
    ensures Meaning(r.description.chars, r.description.elements) == Joined(parts)
  {
    hide ReadFrom, Write, Joined, Tiled, Covered, Meaning;
    WriteThenRead(parts);
  }
}
