/** RFC 3339 texts in UTC: printing, parsing, and how their order as texts relates to the order of instants. */
module UtcTextSpec {
  import opened Text
  import opened Records

  /** Whole seconds of an instant. */
  type Second = s: nat | s < 321_408_000_000

  function Field(sep: char, n: nat): (s: string)
    ensures |s| == 3
  {
    [sep] + Padded(n, 2)
  }

  /** YYYY-MM-DD */
  function DateText(d: Date): (s: string)
    ensures |s| == 10
  {
    Padded(d / 372, 4) + Field('-', d % 372 / 31 + 1) + Field('-', d % 31 + 1)
  }

  /** YYYY-MM-DDThh:mm:ss */
  function SecondText(s: Second): (t: string)
    ensures |t| == 19
  {
    DateText(s / 86_400) + Field('T', s % 86_400 / 3600) + Field(':', s % 3600 / 60) + Field(':', s % 60)
  }

  function FractionText(f: string): string {
    if f == "" then "" else "." + f
  }

  /** A UTC time with the fraction digits f, which may be missing or end in zeros. */
  function UtcText(s: Second, f: string): string {
    SecondText(s) + FractionText(f) + "Z"
  }

  function TrimZeros(f: string): string {
    if f != "" && f[|f| - 1] == '0' then TrimZeros(f[..|f| - 1]) else f
  }

  /** Format(time.RFC3339Nano): fraction digits without trailing zeros. */
  function FormatUtc(t: Time): string {
    UtcText(t / 1_000_000, Fraction(t))
  }

  /** The fraction digits FormatUtc prints. */
  function Fraction(t: Time): string {
    TrimZeros(Padded(t % 1_000_000, 6))
  }

  function Zeros(n: nat): (z: string)
    ensures |z| == n
  {
    seq(n, i => '0')
  }

  /** f at a width of at least w, filled up with zeros. */
  function PadRight(f: string, w: nat): string {
    if |f| >= w then f else f + Zeros(w - |f|)
  }

  function ParseField(text: string, sep: char): Option<nat>
    requires |text| == 3
  {
    if text[0] == sep && AllDigits(text[1..]) then Some(Value(text[1..])) else None
  }

  function ParseDateText(text: string): Option<Date> {
    ParseDateWith(text, '-')
  }

  function ParseDateWith(text: string, sep: char): Option<Date> {
    if |text| != 10 || !AllDigits(text[..4]) then None
    else
      var month :- ParseField(text[4..7], sep);
      var day :- ParseField(text[7..10], sep);
      var year := Value(text[..4]);
      if 1 <= month <= 12 && 1 <= day <= 31 && year < 10_000 then Some((year * 12 + (month - 1)) * 31 + (day - 1))
        else None
  }

  /** parseImportDate: an empty cell is no date; dashes and slashes are read, dashes are written. */
  function ImportDate(cell: string): Option<Option<string>> {
    var text := TrimSpace(cell);
    if text == "" then Some(None)
    else if ParseDateWith(text, '-').Some? then Some(Some(DateText(ParseDateWith(text, '-').value)))
    else
      var date :- ParseDateWith(text, '/');
      Some(Some(DateText(date)))
  }

  function ParseSecond(text: string): Option<Second>
    requires |text| == 19
  {
    var date :- ParseDateText(text[..10]);
    var hour :- ParseField(text[10..13], 'T');
    var minute :- ParseField(text[13..16], ':');
    var second :- ParseField(text[16..19], ':');
    if hour < 24 && minute < 60 && second < 60 then Some(date * 86_400 + hour * 3600 + minute * 60 + second) else None
  }

  /** time.Parse(time.RFC3339Nano, _) for texts in UTC; digits past the sixth are dropped, as the column does. */
  function ParseUtc(text: string): Option<Time> {
    if |text| < 20 || text[|text| - 1] != 'Z' then None
    else
      var s :- ParseSecond(text[..19]);
      var rest := text[19..|text| - 1];
      if rest == "" then Some(s * 1_000_000)
      else if rest[0] != '.' || rest == "." || !AllDigits(rest[1..]) then None
      else
        Micros(rest[1..]);
        Some(s * 1_000_000 + Value(PadRight(rest[1..], 6)[..6]))
  }

  lemma Micros(f: string)
    requires AllDigits(f)
    ensures |PadRight(f, 6)| >= 6 && AllDigits(PadRight(f, 6)[..6]) && Value(PadRight(f, 6)[..6]) < 1_000_000
  {
    assert Power10(6) == 1_000_000;
    ValueBound(PadRight(f, 6)[..6]);
  }

  /** Instants in order: by seconds, then by fraction digits at a common width. */
  ghost predicate Before(s: Second, f: string, s': Second, f': string)
    requires AllDigits(f) && AllDigits(f')
  {
    s < s' || (s == s' && FractionLess(f, f'))
  }

  ghost predicate FractionLess(f: string, f': string)
    requires AllDigits(f) && AllDigits(f')
  {
    var w := if |f| < |f'| then |f'| else |f|;
    Value(PadRight(f, w)) < Value(PadRight(f', w))
  }

  /** One text is a proper beginning of the other. */
  ghost predicate ProperPrefix(a: string, b: string) {
    a <= b && a != b
  }
}

module UtcTextProofs {
  import opened Text
  import opened Records
  import opened Tables
  import opened Authorization
  import opened PushSpec
  import opened UtcTextSpec

  // ----- fixed-width order --------------------------------------------------------

  /** Two texts of equal width that compare as two numbers do. */
  ghost predicate Faithful(a: string, b: string, m: nat, n: nat) {
    |a| == |b| && (TextLess(a, b) <==> m < n) && (a == b <==> m == n)
  }

  lemma FieldFaithful(sep: char, m: nat, n: nat)
    requires m < 100 && n < 100
    ensures Faithful(Field(sep, m), Field(sep, n), m, n)
  {
    PaddedFaithful(m, n, 2);
    TextLessCommonPrefix([sep], Padded(m, 2), Padded(n, 2));
    assert Field(sep, m)[1..] == Padded(m, 2) && Field(sep, n)[1..] == Padded(n, 2);
  }

  lemma PaddedFaithful(m: nat, n: nat, w: nat)
    requires m < Power10(w) && n < Power10(w)
    ensures Faithful(Padded(m, w), Padded(n, w), m, n)
  {
    PaddedRoundTrip(m, w);
    PaddedRoundTrip(n, w);
    FixedWidthOrder(Padded(m, w), Padded(n, w));
  }

  /** Concatenation compares as a number in mixed radix does. */
  lemma FaithfulPair(a: string, b: string, x: string, y: string, m: nat, n: nat, i: nat, j: nat, base: nat)
    requires Faithful(a, b, m, n) && Faithful(x, y, i, j) && i < base && j < base
    ensures Faithful(a + x, b + y, m * base + i, n * base + j)
  {
    assert (a + x)[..|a|] == a && (b + y)[..|b|] == b && (a + x)[|a|..] == x && (b + y)[|b|..] == y;
    if m == n {
      TextLessCommonPrefix(a, x, y);
    } else {
      TextLessDecidedEarly(a, b, x, y);
      MixedRadix(m, n, i, j, base);
    }
  }

  lemma MixedRadix(m: nat, n: nat, i: nat, j: nat, base: nat)
    requires m != n && i < base && j < base
    ensures m * base + i < n * base + j <==> m < n
    ensures m * base + i != n * base + j
  {
    if m < n {
      assert (m + 1) * base <= n * base;
    } else {
      assert (n + 1) * base <= m * base;
    }
  }

  /** Dates compare as texts exactly as they do as dates. */
  lemma DateOrder(d: Date, e: Date)
    ensures Faithful(DateText(d), DateText(e), d, e)
  {
    DateParts(d);
    DateParts(e);
    DateNumbers(d / 372, d % 372 / 31, d % 31, e / 372, e % 372 / 31, e % 31);
    hide Faithful, Field, Padded;
  }

  lemma DateNumbers(y: nat, m: nat, d: nat, y': nat, m': nat, d': nat)
    requires y < 10_000 && y' < 10_000 && m < 12 && m' < 12 && d < 31 && d' < 31
    ensures Faithful(Padded(y, 4) + Field('-', m + 1) + Field('-', d + 1),
                     Padded(y', 4) + Field('-', m' + 1) + Field('-', d' + 1),
                     (y * 12 + m) * 31 + d, (y' * 12 + m') * 31 + d')
  {
    assert Power10(4) == 10_000;
    PaddedFaithful(y, y', 4);
    MonthFaithful(m, m');
    MonthFaithful(d, d');
    hide Faithful, Field, Padded;
    ThreeFaithful(Padded(y, 4), Field('-', m + 1), Field('-', d + 1), Padded(y', 4), Field('-', m' + 1),
                  Field('-', d' + 1), y, m, d, y', m', d');
  }

  lemma ThreeFaithful(a: string, b: string, c: string, a': string, b': string, c': string, i: nat, j: nat, k: nat,
                      i': nat, j': nat, k': nat)
    requires Faithful(a, a', i, i') && Faithful(b, b', j, j') && Faithful(c, c', k, k')
    requires j < 12 && j' < 12 && k < 31 && k' < 31
    ensures Faithful(a + b + c, a' + b' + c', (i * 12 + j) * 31 + k, (i' * 12 + j') * 31 + k')
  {
    hide Faithful;
    FaithfulPair(a, a', b, b', i, i', j, j', 12);
    FaithfulPair(a + b, a' + b', c, c', i * 12 + j, i' * 12 + j', k, k', 31);
  }

  lemma MonthFaithful(m: nat, n: nat)
    requires m < 99 && n < 99
    ensures Faithful(Field('-', m + 1), Field('-', n + 1), m, n)
  {
    FieldFaithful('-', m + 1, n + 1);
  }

  lemma DateParts(d: nat)
    ensures (d / 372 * 12 + d % 372 / 31) * 31 + d % 31 == d && d % 372 / 31 < 12
  {
  }

  lemma SecondOrder(s: Second, t: Second)
    ensures Faithful(SecondText(s), SecondText(t), s, t)
  {
    SecondSplits(s);
    SecondSplits(t);
    DateOrder(s / 86_400, t / 86_400);
    FieldFaithful('T', s % 86_400 / 3600, t % 86_400 / 3600);
    FieldFaithful(':', s % 3600 / 60, t % 3600 / 60);
    FieldFaithful(':', s % 60, t % 60);
    hide Faithful, SecondText;
    FourFaithful(DateText(s / 86_400), Field('T', s % 86_400 / 3600), Field(':', s % 3600 / 60), Field(':', s % 60),
                 DateText(t / 86_400), Field('T', t % 86_400 / 3600), Field(':', t % 3600 / 60), Field(':', t % 60),
                 s / 86_400, s % 86_400 / 3600, s % 3600 / 60, s % 60, t / 86_400, t % 86_400 / 3600, t % 3600 / 60,
                   t % 60);
    SecondParts(s);
    SecondParts(t);
  }

  lemma SecondSplits(s: Second)
    ensures SecondText(s)
      == DateText(s / 86_400) + Field('T', s % 86_400 / 3600) + Field(':', s % 3600 / 60) + Field(':', s % 60)
  {
  }

  lemma FourFaithful(a: string, b: string, c: string, d: string, a': string, b': string, c': string, d': string,
                     i: nat, j: nat, k: nat, l: nat, i': nat, j': nat, k': nat, l': nat)
    requires Faithful(a, a', i, i') && Faithful(b, b', j, j') && Faithful(c, c', k, k') && Faithful(d, d', l, l')
    requires j < 24 && j' < 24 && k < 60 && k' < 60 && l < 60 && l' < 60
    ensures Faithful(a + b + c + d, a' + b' + c' + d', ((i * 24 + j) * 60 + k) * 60 + l,
                     ((i' * 24 + j') * 60 + k') * 60 + l')
  {
    hide Faithful;
    FaithfulPair(a, a', b, b', i, i', j, j', 24);
    FaithfulPair(a + b, a' + b', c, c', i * 24 + j, i' * 24 + j', k, k', 60);
    FaithfulPair(a + b + c, a' + b' + c', d, d', (i * 24 + j) * 60 + k, (i' * 24 + j') * 60 + k', l, l', 60);
  }

  lemma SecondParts(s: nat)
    ensures ((s / 86_400 * 24 + s % 86_400 / 3600) * 60 + s % 3600 / 60) * 60 + s % 60 == s
  {
    HoursOfDay(s);
    MinutesOfHour(s);
  }

  lemma HoursOfDay(s: nat)
    ensures s / 86_400 * 24 + s % 86_400 / 3600 == s / 3600
  {
  }

  lemma MinutesOfHour(s: nat)
    ensures s / 3600 * 60 + s % 3600 / 60 == s / 60
  {
  }

  // ----- fractions ------------------------------------------------------------------

  /** Texts that differ inside both of them compare the same whatever follows. */
  lemma {:induction false} DecidedInside(a: string, b: string, x: string, y: string)
    requires !(a <= b) && !(b <= a)
    ensures TextLess(a + x, b + y) == TextLess(a, b)
  {
    assert (a + x)[0] == a[0] && (b + y)[0] == b[0];
    if a[0] == b[0] {
      assert (a + x)[1..] == a[1..] + x && (b + y)[1..] == b[1..] + y;
      assert a == [a[0]] + a[1..] && b == [b[0]] + b[1..];
      DecidedInside(a[1..], b[1..], x, y);
    }
  }

  lemma PadRightDigits(f: string, w: nat)
    requires AllDigits(f) && |f| <= w
    ensures |PadRight(f, w)| == w && AllDigits(PadRight(f, w))
  {
  }

  /** Fractions that differ inside both of them compare as their digits do. */
  lemma FractionDecidedInside(f: string, g: string)
    requires AllDigits(f) && AllDigits(g) && !(f <= g) && !(g <= f)
    ensures FractionLess(f, g) <==> TextLess(f, g)
  {
    var w := if |f| < |g| then |g| else |f|;
    PadRightDigits(f, w);
    PadRightDigits(g, w);
    FixedWidthOrder(PadRight(f, w), PadRight(g, w));
    assert PadRight(f, w) == f + Zeros(w - |f|) && PadRight(g, w) == g + Zeros(w - |g|);
    DecidedInside(f, g, Zeros(w - |f|), Zeros(w - |g|));
  }

  /** A longer fraction is never less than its own beginning. */
  lemma FractionOfPrefix(f: string, g: string)
    requires AllDigits(f) && AllDigits(g) && f <= g
    ensures !FractionLess(g, f)
  {
    var w := |g|;
    PadRightDigits(f, w);
    FixedWidthOrder(PadRight(f, w), PadRight(g, w));
    assert PadRight(f, w) == f + Zeros(w - |f|) && g == f + g[|f|..];
    FixedWidthOrder(g, PadRight(f, w));
    TextLessCommonPrefix(f, g[|f|..], Zeros(w - |f|));
    ZerosAreLeast(g[|f|..]);
  }

  lemma {:induction false} ZerosAreLeast(f: string)
    requires AllDigits(f)
    ensures !TextLess(f, Zeros(|f|))
  {
    if f != "" {
      assert Zeros(|f|)[1..] == Zeros(|f| - 1);
      ZerosAreLeast(f[1..]);
    }
  }

  /** The zone letter comes after every digit and after the point, so a text sorts behind its longer continuations. */
  lemma PrefixSortsBehind(f: string, g: string)
    requires AllDigits(f) && AllDigits(g) && ProperPrefix(f, g)
    ensures TextLess(FractionText(g) + "Z", FractionText(f) + "Z")
  {
    if f == "" {
      assert (FractionText(g) + "Z")[0] == '.' && (FractionText(f) + "Z")[0] == 'Z';
    } else {
      var p := "." + f;
      var rest := g[|f|..] + "Z";
      assert FractionText(g) + "Z" == p + rest && FractionText(f) + "Z" == p + "Z";
      TextLessCommonPrefix(p, rest, "Z");
      assert rest[0] == g[|f|];
    }
  }

  // ----- the order of texts and the order of instants ---------------------------------

  /** Of two UTC times in order, the texts are in order too, unless both fall into one second and the earlier fraction
      is a proper beginning of the later one: then the texts are in the opposite order. */
  lemma UtcOrder(s: Second, f: string, s': Second, f': string)
    requires AllDigits(f) && AllDigits(f') && Before(s, f, s', f')
    ensures if s == s' && ProperPrefix(f, f') then TextLess(UtcText(s', f'), UtcText(s, f))
      else TextLess(UtcText(s, f), UtcText(s', f'))
  {
    SecondOrder(s, s');
    SplitUtc(s, f);
    SplitUtc(s', f');
    var x, y := FractionText(f) + "Z", FractionText(f') + "Z";
    if s < s' {
      TextLessDecidedEarly(SecondText(s), SecondText(s'), x, y);
    } else {
      TextLessCommonPrefix(SecondText(s), x, y);
      TextLessCommonPrefix(SecondText(s), y, x);
      SameSecondOrder(f, f');
    }
  }

  lemma SplitUtc(s: Second, f: string)
    ensures UtcText(s, f) == SecondText(s) + (FractionText(f) + "Z")
  {
  }

  lemma SameSecondOrder(f: string, f': string)
    requires AllDigits(f) && AllDigits(f') && FractionLess(f, f')
    ensures var x, y := FractionText(f) + "Z", FractionText(f') + "Z";
      if ProperPrefix(f, f') then TextLess(y, x) else TextLess(x, y)
  {
    if ProperPrefix(f, f') {
      PrefixSortsBehind(f, f');
    } else {
      NotPrefixOfLess(f, f');
      FractionDecidedInside(f, f');
      DecidedInside(f, f', "Z", "Z");
      TextLessCommonPrefix(".", f + "Z", f' + "Z");
      assert FractionText(f) + "Z" == "." + (f + "Z") && FractionText(f') + "Z" == "." + (f' + "Z");
    }
  }

  lemma NotPrefixOfLess(f: string, f': string)
    requires AllDigits(f) && AllDigits(f') && FractionLess(f, f') && !ProperPrefix(f, f')
    ensures !(f <= f') && !(f' <= f)
  {
    if f' <= f {
      FractionOfPrefix(f', f);
    }
  }

  /** With the same number of fraction digits, or in different seconds, texts and instants are ordered alike. */
  lemma SameWidthOrder(s: Second, f: string, s': Second, f': string)
    requires AllDigits(f) && AllDigits(f') && (|f| == |f'| || s != s')
    ensures TextLess(UtcText(s, f), UtcText(s', f')) <==> Before(s, f, s', f')
  {
    if Before(s, f, s', f') {
      UtcOrder(s, f, s', f');
    } else if Before(s', f', s, f) {
      UtcOrder(s', f', s, f);
      TextLessAsymmetric(UtcText(s', f'), UtcText(s, f));
    } else {
      FixedWidthOrder(f, f');
      assert PadRight(f, |f|) == f && PadRight(f', |f|) == f';
      TextLessIrreflexive(UtcText(s, f));
    }
  }

  /** Half a second past midnight sorts before midnight. */
  lemma TrimmedFractionsMislead()
    ensures FormatUtc(0) == UtcText(0, "") && FormatUtc(500_000) == UtcText(0, "5")
    ensures TextLess(FormatUtc(500_000), FormatUtc(0))
  {
    assert Padded(0, 6) == "000000" && Padded(500_000, 6) == "500000" by {
      SixDigits();
    }
    TrimmedExamples();
    PrefixSortsBehind("", "5");
    TextLessCommonPrefix(SecondText(0), FractionText("5") + "Z", FractionText("") + "Z");
    SplitUtc(0, "5");
    SplitUtc(0, "");
  }

  lemma SixDigits()
    ensures Padded(0, 6) == "000000" && Padded(500_000, 6) == "500000"
  {
    assert Padded(0, 0) == "" && Padded(0, 1) == "0" && Padded(0, 2) == "00" && Padded(0, 3) == "000"
      && Padded(0, 4) == "0000" && Padded(0, 5) == "00000";
    assert Padded(5, 1) == "5" && Padded(50, 2) == "50" && Padded(500, 3) == "500" && Padded(5000, 4) == "5000"
      && Padded(50_000, 5) == "50000";
  }

  lemma TrimmedExamples()
    ensures TrimZeros("000000") == "" && TrimZeros("500000") == "5"
  {
    assert "000000"[..5] == "00000" && "00000"[..4] == "0000" && "0000"[..3] == "000" && "000"[..2] == "00"
      && "00"[..1] == "0" && "0"[..0] == "";
    assert "500000"[..5] == "50000" && "50000"[..4] == "5000" && "5000"[..3] == "500" && "500"[..2] == "50"
      && "50"[..1] == "5";
    assert TrimZeros("0") == "" && TrimZeros("00") == "" && TrimZeros("000") == "";
    assert TrimZeros("5") == "5" && TrimZeros("50") == "5" && TrimZeros("500") == "5";
  }

  // ----- round trips -----------------------------------------------------------------------

  lemma FieldRoundTrip(sep: char, n: nat)
    requires n < 100
    ensures ParseField(Field(sep, n), sep) == Some(n)
  {
    assert Power10(2) == 100;
    PaddedRoundTrip(n, 2);
    assert Field(sep, n)[1..] == Padded(n, 2);
  }

  lemma DateRoundTrip(d: Date)
    ensures ParseDateText(DateText(d)) == Some(d)
  {
    assert Power10(4) == 10_000;
    PaddedRoundTrip(d / 372, 4);
    FieldRoundTrip('-', d % 372 / 31 + 1);
    FieldRoundTrip('-', d % 31 + 1);
    hide Padded, Field, ParseField;
    ThreeParts(Padded(d / 372, 4), Field('-', d % 372 / 31 + 1), Field('-', d % 31 + 1));
    DateParts(d);
  }

  lemma ThreeParts(a: string, b: string, c: string)
    requires |a| == 4 && |b| == |c| == 3
    ensures var t := a + b + c; t[..4] == a && t[4..7] == b && t[7..10] == c
  {
  }

  lemma SecondSlices(s: Second)
    ensures var t := SecondText(s);
      && t[..10] == DateText(s / 86_400) && t[10..13] == Field('T', s % 86_400 / 3600)
      && t[13..16] == Field(':', s % 3600 / 60) && t[16..19] == Field(':', s % 60)
  {
    hide DateText, Field;
    FourParts(DateText(s / 86_400), Field('T', s % 86_400 / 3600), Field(':', s % 3600 / 60), Field(':', s % 60));
  }

  lemma FourParts(a: string, b: string, c: string, d: string)
    requires |a| == 10 && |b| == |c| == |d| == 3
    ensures var t := a + b + c + d; t[..10] == a && t[10..13] == b && t[13..16] == c && t[16..19] == d
  {
  }

  lemma SecondRoundTrip(s: Second)
    ensures ParseSecond(SecondText(s)) == Some(s)
  {
    hide DateText, Field, ParseField, ParseDateText, SecondText;
    SecondSlices(s);
    DateRoundTrip(s / 86_400);
    FieldRoundTrip('T', s % 86_400 / 3600);
    FieldRoundTrip(':', s % 3600 / 60);
    FieldRoundTrip(':', s % 60);
    SecondValue(s);
  }

  lemma SecondValue(s: nat)
    ensures s / 86_400 * 86_400 + s % 86_400 / 3600 * 3600 + s % 3600 / 60 * 60 + s % 60 == s
  {
    SecondParts(s);
  }

  lemma {:induction false} TrimZerosResult(f: string)
    requires AllDigits(f)
    ensures TrimZeros(f) <= f && AllDigits(TrimZeros(f)) && PadRight(TrimZeros(f), |f|) == f
  {
    if f != "" && f[|f| - 1] == '0' {
      var front := f[..|f| - 1];
      TrimZerosResult(front);
      assert f == front + ['0'];
      assert PadRight(TrimZeros(f), |f|) == PadRight(TrimZeros(front), |front|) + ['0'];
    }
  }

  /** The fraction digits determine the microseconds. */
  lemma FractionRoundTrip(t: Time)
    ensures var f := Fraction(t);
      && AllDigits(f) && |PadRight(f, 6)| == 6 && AllDigits(PadRight(f, 6)) && Value(PadRight(f, 6)) == t % 1_000_000
  {
    assert Power10(6) == 1_000_000;
    PaddedRoundTrip(t % 1_000_000, 6);
    TrimZerosResult(Padded(t % 1_000_000, 6));
    hide TrimZeros, Padded, Value, PadRight;
  }

  lemma UtcShape(s: Second, f: string)
    ensures var text := UtcText(s, f);
      && |text| >= 20 && text[|text| - 1] == 'Z' && text[..19] == SecondText(s)
      && text[19..|text| - 1] == FractionText(f)
  {
    hide SecondText;
  }

  /** Printing an instant and parsing the text gives the instant back. */
  lemma UtcRoundTrip(t: Time)
    ensures ParseUtc(FormatUtc(t)) == Some(t)
  {
    var f := Fraction(t);
    hide ParseSecond, SecondText, UtcText, PadRight, Fraction, Value, AllDigits;
    SecondRoundTrip(t / 1_000_000);
    UtcShape(t / 1_000_000, f);
    FractionRoundTrip(t);
    var padded := PadRight(f, 6);
    assert padded[..6] == padded;
    if f == "" {
      NoFraction();
    } else {
      assert FractionText(f)[1..] == f;
    }
  }

  lemma NoFraction()
    ensures AllDigits(PadRight("", 6)) && Value(PadRight("", 6)) == 0
  {
    ZerosAreZero();
    assert PadRight("", 6) == Zeros(6);
  }

  lemma ZerosAreZero()
    ensures AllDigits(Zeros(6)) && Value(Zeros(6)) == 0
  {
    assert Zeros(6)[..5] == Zeros(5) && Zeros(5)[..4] == Zeros(4) && Zeros(4)[..3] == Zeros(3);
    assert Zeros(3)[..2] == Zeros(2) && Zeros(2)[..1] == Zeros(1) && Zeros(1)[..0] == Zeros(0);
    assert Value(Zeros(1)) == 0 && Value(Zeros(2)) == 0 && Value(Zeros(3)) == 0;
  }

  // ----- an environment ------------------------------------------------------------------------

  /** Some order in which to visit a set. */
  ghost function SomeOrder(xs: set<string>): seq<string> {
    if xs == {} then []
    else
      var x :| x in xs;
      SomeOrder(xs - {x}) + [x]
  }

  lemma {:induction false} SomeOrderLists(xs: set<string>)
    ensures Lists(SomeOrder(xs), xs)
  {
    if xs != {} {
      var x :| x in xs && SomeOrder(xs) == SomeOrder(xs - {x}) + [x];
      SomeOrderLists(xs - {x});
      var front, s := SomeOrder(xs - {x}), SomeOrder(xs);
      assert forall i | 0 <= i < |front| :: front[i] in front;
      assert forall i | 0 <= i < |front| :: s[i] == front[i];
      forall y
        ensures y in s <==> y in xs
      {
        assert y in s <==> y in front || y == x;
      }
    }
  }

  lemma UtcIsPlain(t: Time)
    ensures '#' !in FormatUtc(t) && IsTrimmed(FormatUtc(t))
  {
    var micros := t % 1_000_000;
    assert Power10(6) == 1_000_000;
    PaddedRoundTrip(micros, 6);
    TrimZerosResult(Padded(micros, 6));
    SecondIsPlain(t / 1_000_000);
    var f := Fraction(t);
    hide TrimZeros, Padded, SecondText;
    assert forall i | 0 <= i < |f| :: f[i] != '#';
  }

  lemma SecondIsPlain(s: Second)
    ensures '#' !in SecondText(s) && IsDigit(SecondText(s)[0])
  {
    FieldIsPlain('T', s % 86_400 / 3600);
    FieldIsPlain(':', s % 3600 / 60);
    FieldIsPlain(':', s % 60);
    var d := s / 86_400;
    FieldIsPlain('-', d % 372 / 31 + 1);
    FieldIsPlain('-', d % 31 + 1);
    assert Power10(4) == 10_000;
    PaddedRoundTrip(d / 372, 4);
    hide Field, Padded;
  }

  lemma FieldIsPlain(sep: char, n: nat)
    requires n < 100 && sep != '#'
    ensures '#' !in Field(sep, n)
  {
    assert Power10(2) == 100;
    PaddedRoundTrip(n, 2);
    hide Padded;
  }

  /** UTC texts meet everything the rest of the model asks of time formatting. */
  lemma UtcEnvIsValid(normalize: string -> string, users: set<string>)
    ensures ValidEnv(Env(ParseUtc, FormatUtc, ParseDateText, DateText, normalize, SomeOrder, users))
  {
    forall t: Time
      ensures ParseUtc(FormatUtc(t)) == Some(t) && '#' !in FormatUtc(t) && IsTrimmed(FormatUtc(t))
    {
      UtcRoundTrip(t);
      UtcIsPlain(t);
    }
    forall d: Date
      ensures ParseDateText(DateText(d)) == Some(d)
    {
      DateRoundTrip(d);
    }
    forall xs: set<string>
      ensures Lists(SomeOrder(xs), xs)
    {
      SomeOrderLists(xs);
    }
  }

  // ----- the tests that compare texts --------------------------------------------------------------

  /** Dates read from cells compare as texts exactly as they do as dates, whichever way each was written. */
  lemma ImportDateOrder(a: string, b: string) returns (d: Date, e: Date)
    requires ImportDate(a).Some? && ImportDate(a).value.Some? && ImportDate(b).Some? && ImportDate(b).value.Some?
    ensures d in CellDates(a) && e in CellDates(b)
    ensures TextLess(ImportDate(a).value.value, ImportDate(b).value.value) <==> d < e
  {
    var s, t := TrimSpace(a), TrimSpace(b);
    d := if ParseDateWith(s, '-').Some? then ParseDateWith(s, '-').value else ParseDateWith(s, '/').value;
    e := if ParseDateWith(t, '-').Some? then ParseDateWith(t, '-').value else ParseDateWith(t, '/').value;
    DateOrder(d, e);
    hide ParseDateWith, DateText, TrimSpace;
  }

  /** The dates a cell can be read as. */
  ghost function CellDates(cell: string): set<Date> {
    set sep: char, d: Date | sep in {'-', '/'} && ParseDateWith(TrimSpace(cell), sep) == Some(d) :: d
  }

  /** rfc3339Date: the first ten characters of a server time are its UTC date. */
  lemma DateOfText(t: Time)
    ensures FormatUtc(t)[..10] == DateText(DateOf(t))
  {
    assert t / 1_000_000 / 86_400 == DateOf(t);
    hide DateText, Field, TrimZeros;
  }

  /** The stale-write test, exactly. A client time before the stored one is found stale, unless both fall into one
      second and the client's fraction is a proper beginning of the stored one. A client time that is not before the
      stored one is found stale only if they fall into one second and the stored fraction is a proper beginning of the
      client's. */
  lemma StaleTestExact(env: Env, m: Mutation, row: Row, s: Second, f: string)
    requires env.formatTime == FormatUtc && AllDigits(f) && m.clientModifiedAt == UtcText(s, f)
    ensures AllDigits(Fraction(row.lastModifiedAt))
    ensures var (s', f') := (row.lastModifiedAt / 1_000_000, Fraction(row.lastModifiedAt));
      IsStale(env, m, Some(row)) <==>
        if Before(s, f, s', f') then !(s == s' && ProperPrefix(f, f')) else s == s' && ProperPrefix(f', f)
  {
    var t := row.lastModifiedAt;
    var s', f' := t / 1_000_000, Fraction(t);
    assert Power10(6) == 1_000_000;
    PaddedRoundTrip(t % 1_000_000, 6);
    TrimZerosResult(Padded(t % 1_000_000, 6));
    var client, stored := UtcText(s, f), UtcText(s', f');
    assert IsStale(env, m, Some(row)) <==> TextLess(client, stored);
    hide UtcText, Fraction, FractionLess, IsStale;
    if Before(s, f, s', f') {
      UtcOrder(s, f, s', f');
      if s == s' && ProperPrefix(f, f') {
        TextLessAsymmetric(stored, client);
      }
    } else if Before(s', f', s, f) {
      UtcOrder(s', f', s, f);
      if !(s == s' && ProperPrefix(f', f)) {
        TextLessAsymmetric(stored, client);
      }
    } else {
      SameInstant(s, f, f');
    }
  }

  /** Two texts of one instant: one fraction is the other with zeros added, and the longer one sorts first. */
  lemma SameInstant(s: Second, f: string, f': string)
    requires AllDigits(f) && AllDigits(f') && !FractionLess(f, f') && !FractionLess(f', f)
    ensures TextLess(UtcText(s, f), UtcText(s, f')) <==> ProperPrefix(f', f)
  {
    SplitUtc(s, f);
    SplitUtc(s, f');
    TextLessCommonPrefix(SecondText(s), FractionText(f) + "Z", FractionText(f') + "Z");
    if f == f' {
      TextLessIrreflexive(FractionText(f) + "Z");
    } else if f' <= f {
      PrefixSortsBehind(f', f);
    } else if f <= f' {
      PrefixSortsBehind(f, f');
      TextLessAsymmetric(FractionText(f') + "Z", FractionText(f) + "Z");
    } else {
      FractionDecidedInside(f, f');
      FractionDecidedInside(f', f);
      TextLessTotal(f, f');
      assert false;
    }
  }
}
