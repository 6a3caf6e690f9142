/** Turning the captioning model's free text into the three caption options
    (bot.py:74-86) and the preview of each option shown to the user
    (bot.py:100). */
module Captions {
  import opened PyStr

  /** The separator the prompt asks the model to put between options. */
  const Delimiter: string := "|||"
  const Generic2: string := "Opción 2 genérica"
  const Generic3: string := "Opción 3 genérica"
  /** The placeholder for a missing option; never reached, see ParseOptionsAsWritten. */
  const NotAvailable: string := "N/A"
  /** The number of characters of each option that the menu shows. */
  const PreviewLength: nat := 100

  datatype Options = Options(first: string, second: string, third: string)

  /** The list `opciones` after the length check: the split pieces when there
      are at least three of them, otherwise the whole text followed by the two
      generic options. It always has at least three entries. */
  function Pieces(text: string): (p: seq<string>)
    ensures |p| >= 3
  {
    var parts := Split(text, Delimiter);
    if |parts| < 3 then [text, Generic2, Generic3] else parts
  }

  /** The options exactly as the handler computes them, with its
      `len(opciones) > 1` and `len(opciones) > 2` guards; since `Pieces`
      always has three entries, the "N/A" branches are never taken. */
  function ParseOptionsAsWritten(text: string): (o: Options)
    ensures o.first == Strip(Pieces(text)[0])
    ensures o.second == Strip(Pieces(text)[1])
    ensures o.third == Strip(Pieces(text)[2])
  {
    var p := Pieces(text);
    Options(
      Strip(p[0]),
      if |p| > 1 then Strip(p[1]) else NotAvailable,
      if |p| > 2 then Strip(p[2]) else NotAvailable)
  }

  /** The options the bot offers: with three or more pieces, the first three
      stripped; otherwise the whole text stripped and the two generic
      options, which need no stripping. */
  function ParseOptions(text: string): Options {
    var parts := Split(text, Delimiter);
    if |parts| < 3 then Options(Strip(text), Generic2, Generic3)
    else Options(Strip(parts[0]), Strip(parts[1]), Strip(parts[2]))
  }

  /** Both descriptions of the parse agree on every text. */
  lemma ParseOptionsFaithful(text: string)
    ensures ParseOptionsAsWritten(text) == ParseOptions(text)
  {
    GenericStripped();
  }

  /** The generic options are already stripped. */
  lemma GenericStripped()
    ensures Strip(Generic2) == Generic2 && Strip(Generic3) == Generic3
  {
    StripExact("", Generic2, "");
    assert "" + Generic2 + "" == Generic2;
    StripExact("", Generic3, "");
    assert "" + Generic3 + "" == Generic3;
  }

  /** Fewer than three pieces means zero or one separator: either none is
      found, or none is found after the first one. */
  lemma FallbackIffAtMostOneDelimiter(text: string)
    ensures |Split(text, Delimiter)| < 3 <==>
      (Find(text, Delimiter).None? ||
       Find(text[Find(text, Delimiter).value + |Delimiter|..], Delimiter).None?)
  {
    var f := Find(text, Delimiter);
    if f.Some? {
      var rest := text[f.value + |Delimiter|..];
      assert Split(text, Delimiter) == [text[..f.value]] + Split(rest, Delimiter);
    }
  }

  /** A text with no separator falls back, its first option being the whole
      text stripped. */
  lemma NoDelimiterFallback(text: string)
    requires Free(text, Delimiter)
    ensures ParseOptions(text) == Options(Strip(text), Generic2, Generic3)
  {
    SplitFree(text, Delimiter);
  }

  /** A text with exactly one separator also falls back, and the separator
      stays inside the first option. */
  lemma SingleDelimiterFallback(a: string, b: string)
    requires DelimitedBy(a, Delimiter) && Free(b, Delimiter)
    ensures ParseOptions(a + Delimiter + b) == Options(Strip(a + Delimiter + b), Generic2, Generic3)
  {
    SplitCons(a, Delimiter, b);
    SplitFree(b, Delimiter);
  }

  /** Everything after the third separator is discarded: whatever text `t`
      follows it, the options are the first three pieces stripped. */
  lemma ExtraPiecesDiscarded(a: string, b: string, c: string, t: string)
    requires DelimitedBy(a, Delimiter) && DelimitedBy(b, Delimiter) && DelimitedBy(c, Delimiter)
    ensures ParseOptions(a + Delimiter + b + Delimiter + c + Delimiter + t) ==
      Options(Strip(a), Strip(b), Strip(c))
  {
    var d := Delimiter;
    var s3 := c + d + t;
    var s2 := b + d + s3;
    var s1 := a + d + s2;
    SplitCons(c, d, t);
    SplitCons(b, d, s3);
    SplitCons(a, d, s2);
    var parts := Split(s1, d);
    assert parts == [a] + ([b] + ([c] + Split(t, d)));
    assert parts[0] == a && parts[1] == b && parts[2] == c;
    Regroup(a, b, c, d, t);
  }

  lemma Regroup(a: string, b: string, c: string, d: string, t: string)
    ensures a + d + (b + d + (c + d + t)) == a + d + b + d + c + d + t
  {
  }

  /** `s` neither starts nor ends with whitespace. */
  ghost predicate Trimmed(s: string) {
    s == [] || (!IsSpace(s[0]) && !IsSpace(s[|s| - 1]))
  }

  lemma TrimmedIsStripped(s: string)
    requires Trimmed(s)
    ensures Strip(s) == s
  {
    StripExact([], s, []);
    assert [] + s + [] == s;
  }

  lemma Regroup3(a: string, b: string, c: string, d: string)
    ensures a + d + (b + d + c) == a + d + b + d + c
  {
  }

  /** An answer of exactly three pieces gives those three pieces, each
      stripped, when each of the first two is cut at the delimiter that
      follows it and the last holds no delimiter. */
  lemma ThreePieces(a: string, b: string, c: string)
    requires DelimitedBy(a, Delimiter) && DelimitedBy(b, Delimiter) && Free(c, Delimiter)
    ensures ParseOptions(a + Delimiter + b + Delimiter + c) == Options(Strip(a), Strip(b), Strip(c))
  {
    var d := Delimiter;
    var s2 := b + d + c;
    var s1 := a + d + s2;
    SplitFree(c, d);
    SplitCons(b, d, c);
    SplitCons(a, d, s2);
    var parts := Split(s1, d);
    assert parts == [a] + ([b] + [c]);
    assert parts[0] == a && parts[1] == b && parts[2] == c;
    Regroup3(a, b, c, d);
  }

  /** The format the prompt asks for, three options separated by the
      delimiter, is parsed back into exactly those options when none starts or
      ends with whitespace, each of the first two is cut at the delimiter that
      follows it, and the last holds no delimiter. */
  lemma FormatRoundTrip(a: string, b: string, c: string)
    requires Trimmed(a) && Trimmed(b) && Trimmed(c)
    requires DelimitedBy(a, Delimiter) && DelimitedBy(b, Delimiter) && Free(c, Delimiter)
    ensures ParseOptions(a + Delimiter + b + Delimiter + c) == Options(a, b, c)
  {
    ThreePieces(a, b, c);
    TrimmedIsStripped(a);
    TrimmedIsStripped(b);
    TrimmedIsStripped(c);
  }

  /** The options need not be non-empty: a well-formed answer whose first
      piece is blank yields an empty first option. */
  lemma EmptyOptionPossible()
    ensures ParseOptions("|||pizza|||promo").first == ""
  {
    var d := Delimiter;
    NoBarIsDelimited("");
    NoBarIsDelimited("pizza");
    NoBarIsDelimited("promo");
    FormatRoundTrip("", "pizza", "promo");
    SampleAnswer();
  }

  lemma SampleAnswer()
    ensures "" + Delimiter + "pizza" + Delimiter + "promo" == "|||pizza|||promo"
  {
  }

  /** A text without any '|' is cut exactly at a following delimiter and holds
      none itself. */
  lemma NoBarIsDelimited(a: string)
    requires forall i :: 0 <= i < |a| ==> a[i] != '|'
    ensures DelimitedBy(a, Delimiter) && Free(a, Delimiter)
  {
    var d := Delimiter;
    forall j | 0 <= j < |a|
      ensures !OccursAt(a + d, d, j)
    {
      assert (a + d)[j..j + 3][0] == a[j] != '|';
    }
    forall j | 0 <= j && j + 3 <= |a|
      ensures !OccursAt(a, d, j)
    {
      assert a[j..j + 3][0] == a[j] != '|';
    }
  }

  /** `option[:100] + "..."`: the option cut to its first hundred
      characters, then an ellipsis. */
  function Preview(option: string): string {
    (if |option| <= PreviewLength then option else option[..PreviewLength]) + "..."
  }

  /** A preview is the option itself when it is short, and otherwise its
      first hundred characters; either way followed by "...". */
  lemma PreviewShape(option: string)
    ensures var r := Preview(option);
      && |r| == (if |option| <= PreviewLength then |option| else PreviewLength) + 3
      && option[..|r| - 3] == r[..|r| - 3]
      && r[|r| - 3..] == "..."
  {
  }
}
