/** The lexical layer of the two HLS modules: stripping, unsigned decimals,
    zero-padded segment names and the EXTINF duration field. */
module HlsText {
  import opened Prelude

  // ---------- Stripping ----------

  predicate IsSpace(c: char) { c in [' ', '\t', '\n', '\r'] }

  function LStrip(s: string): string {
    if s != [] && IsSpace(s[0]) then LStrip(s[1..]) else s
  }

  function RStrip(s: string): string {
    if s != [] && IsSpace(s[|s| - 1]) then RStrip(s[..|s| - 1]) else s
  }

  function Strip(s: string): string { RStrip(LStrip(s)) }

  lemma StripTight(s: string)
    requires s != [] ==> !IsSpace(s[0]) && !IsSpace(s[|s| - 1])
    ensures Strip(s) == s
  {
  }

  /** Stripping cannot hide a leading tag. */
  lemma {:induction false} RStripKeepsPrefix(s: string, tag: string)
    requires tag != [] && tag <= s && !IsSpace(tag[|tag| - 1])
    ensures tag <= RStrip(s)
    decreases |s|
  {
    if IsSpace(s[|s| - 1]) {
      assert |tag| < |s| by { assert s[|tag| - 1] == tag[|tag| - 1]; }
      assert tag <= s[..|s| - 1];
      RStripKeepsPrefix(s[..|s| - 1], tag);
    }
  }

  lemma StripKeepsTag(s: string, tag: string)
    requires tag != [] && tag <= s && !IsSpace(tag[0]) && !IsSpace(tag[|tag| - 1])
    ensures tag <= Strip(s)
  {
    assert s[0] == tag[0];
    RStripKeepsPrefix(s, tag);
  }

  lemma {:induction false} LStripHead(s: string)
    ensures LStrip(s) != [] ==> !IsSpace(LStrip(s)[0])
  {
    if s != [] && IsSpace(s[0]) {
      LStripHead(s[1..]);
    }
  }

  lemma {:induction false} RStripEnds(s: string)
    ensures RStrip(s) <= s
    ensures RStrip(s) != [] ==> !IsSpace(RStrip(s)[|RStrip(s)| - 1])
  {
    if s != [] && IsSpace(s[|s| - 1]) {
      RStripEnds(s[..|s| - 1]);
    }
  }

  /** Stripped text neither begins nor ends with white space. */
  lemma StripEnds(s: string)
    ensures var t := Strip(s); t != [] ==> !IsSpace(t[0]) && !IsSpace(t[|t| - 1])
  {
    LStripHead(s);
    RStripEnds(LStrip(s));
  }

  // ---------- Unsigned numerals ----------

  predicate IsDigit(c: char) { '0' <= c <= '9' }

  predicate AllDigits(s: string) { forall i :: 0 <= i < |s| ==> IsDigit(s[i]) }

  /** int() of a digit string. */
  function ParseNat(s: string): nat
    requires AllDigits(s)
  {
    if s == [] then 0 else ParseNat(s[..|s| - 1]) * 10 + (s[|s| - 1] as int - '0' as int)
  }

  function PrintNat(n: nat): (s: string)
    ensures s != [] && AllDigits(s) && ParseNat(s) == n
  {
    var digit := ('0' as int + n % 10) as char;
    if n < 10 then [digit] else
      var s := PrintNat(n / 10) + [digit];
      assert s[..|s| - 1] == PrintNat(n / 10);
      s
  }

  function Pow10(k: nat): nat { if k == 0 then 1 else 10 * Pow10(k - 1) }

  /** A numeral has at most k digits exactly when the number is below 10^k. */
  lemma {:induction false} NumeralLength(n: nat, k: nat)
    requires k >= 1
    ensures |PrintNat(n)| <= k <==> n < Pow10(k)
    decreases n
  {
    if n < 10 {
      PowGrows(k);
    } else if k == 1 {
      assert Pow10(1) == 10 * Pow10(0);
    } else {
      NumeralLength(n / 10, k - 1);
    }
  }

  lemma {:induction false} PowGrows(k: nat)
    requires k >= 1
    ensures Pow10(k) >= 10
  {
    if k > 1 {
      PowGrows(k - 1);
    }
  }

  /** Printf's %0<width>d. */
  function Padded(n: nat, width: nat): (s: string)
    ensures AllDigits(s) && |s| == Max(width, |PrintNat(n)|) && ParseNat(s) == n
  {
    var digits := PrintNat(n);
    if |digits| >= width then digits
    else
      var zeros := seq(width - |digits|, i => '0');
      LeadingZeros(zeros, digits);
      zeros + digits
  }

  lemma {:induction false} LeadingZeros(zeros: string, s: string)
    requires AllDigits(s) && forall i :: 0 <= i < |zeros| ==> zeros[i] == '0'
    ensures AllDigits(zeros + s) && ParseNat(zeros + s) == ParseNat(s)
    decreases |zeros| + |s|
  {
    if s != [] {
      LeadingZeros(zeros, s[..|s| - 1]);
      assert (zeros + s)[..|zeros + s| - 1] == zeros + s[..|s| - 1];
    } else if zeros != [] {
      LeadingZeros(zeros[..|zeros| - 1], s);
      assert (zeros + s)[..|zeros + s| - 1] == zeros[..|zeros| - 1] + s;
    }
  }

  // ---------- The EXTINF duration field ----------

  /** Length of the longest run of leading digits. */
  function DigitRun(s: string): (n: nat)
    ensures n <= |s| && AllDigits(s[..n])
    ensures n < |s| ==> !IsDigit(s[n])
  {
    if s == [] || !IsDigit(s[0]) then 0
    else
      var n := 1 + DigitRun(s[1..]);
      assert s[..n] == [s[0]] + s[1..][..n - 1];
      n
  }

  lemma {:induction false} DigitRunStops(a: string, b: string)
    requires AllDigits(a) && (b != [] ==> !IsDigit(b[0]))
    ensures DigitRun(a + b) == |a|
  {
    if a == [] {
      assert a + b == b;
    } else {
      assert (a + b)[1..] == a[1..] + b;
      DigitRunStops(a[1..], b);
    }
  }

  /** The optional group (\.[0-9]+)? after the whole part. */
  function Fraction(rest: string): (f: real)
    ensures f >= 0.0
  {
    if rest != [] && rest[0] == '.' then DecimalDigits(rest[1..]) else 0.0
  }

  function DecimalDigits(s: string): (f: real)
    ensures f >= 0.0
  {
    var n := DigitRun(s);
    PowPositive(n);
    ParseNat(s[..n]) as real / Pow10(n) as real
  }

  /** float() of the match of [0-9]+(\.[0-9]+)? at the start of the text. */
  function LeadingDecimal(s: string): (d: Option<real>)
    ensures d.Some? ==> d.value >= 0.0
  {
    var n := DigitRun(s);
    if n == 0 then None else Some(ParseNat(s[..n]) as real + Fraction(s[n..]))
  }

  lemma {:induction false} PowPositive(k: nat)
    ensures Pow10(k) > 0
  {
    if k > 0 {
      PowPositive(k - 1);
    }
  }

  const EXTINF := "#EXTINF"
  const EXTINF_COLON := "#EXTINF:"

  /** The duration captured from a stripped EXTINF line, if it has one. */
  function Duration(stripped: string): (d: Option<real>)
    ensures d.Some? ==> d.value >= 0.0
  {
    if EXTINF_COLON <= stripped then LeadingDecimal(stripped[|EXTINF_COLON|..]) else None
  }

  /** The packager writes durations with six decimals. */
  function PrintMicros(us: nat): string {
    PrintNat(us / 1_000_000) + "." + Padded(us % 1_000_000, 6)
  }

  function Seconds(us: nat): real { us as real / 1_000_000.0 }

  lemma PrintedDecimal(us: nat, tail: string)
    requires tail != [] && !IsDigit(tail[0])
    ensures LeadingDecimal(PrintMicros(us) + tail) == Some(Seconds(us))
  {
    hide LeadingDecimal, PrintNat, Padded;
    PrintedParts(us / 1_000_000, us % 1_000_000, tail);
    WholeAndMicros(us);
  }

  lemma PrintedParts(q: nat, r: nat, tail: string)
    requires r < 1_000_000 && tail != [] && !IsDigit(tail[0])
    ensures LeadingDecimal(PrintNat(q) + "." + Padded(r, 6) + tail) == Some(q as real + r as real / 1_000_000.0)
  {
    hide LeadingDecimal, Fraction;
    var whole, frac := PrintNat(q), Padded(r, 6);
    SixDigits(r);
    var rest := "." + (frac + tail);
    WholeThenRest(whole, rest);
    FractionParts(frac, tail);
    DotParts(whole, frac, tail);
  }

  lemma DotParts(whole: string, frac: string, tail: string)
    ensures whole + "." + frac + tail == whole + ("." + (frac + tail))
  {
  }

  lemma SixDigits(r: nat)
    requires r < 1_000_000
    ensures |Padded(r, 6)| == 6 && Pow10(6) == 1_000_000
  {
    MillionIsSixDigits();
    NumeralLength(r, 6);
  }

  lemma FractionParts(frac: string, tail: string)
    requires AllDigits(frac) && tail != [] && !IsDigit(tail[0])
    ensures Pow10(|frac|) > 0
    ensures Fraction("." + (frac + tail)) == ParseNat(frac) as real / Pow10(|frac|) as real
  {
    PowPositive(|frac|);
    DigitRunStops(frac, tail);
    var rest := "." + (frac + tail);
    assert rest[1..] == frac + tail;
    assert (frac + tail)[..|frac|] == frac;
  }

  lemma WholeThenRest(whole: string, rest: string)
    requires AllDigits(whole) && whole != [] && rest != [] && !IsDigit(rest[0])
    ensures LeadingDecimal(whole + rest) == Some(ParseNat(whole) as real + Fraction(rest))
  {
    DigitRunStops(whole, rest);
    assert (whole + rest)[..|whole|] == whole && (whole + rest)[|whole|..] == rest;
  }

  lemma WholeAndMicros(us: nat)
    ensures (us / 1_000_000) as real + (us % 1_000_000) as real / 1_000_000.0 == Seconds(us)
  {
    var q, r := us / 1_000_000, us % 1_000_000;
    assert us == q * 1_000_000 + r;
    assert us as real == q as real * 1_000_000.0 + r as real;
  }

  lemma MillionIsSixDigits()
    ensures Pow10(6) == 1_000_000
  {
    assert Pow10(3) == 1000;
  }

  // ---------- Segment names ----------

  function Middle(s: string): string
    requires |s| >= 7
  {
    s[4..|s| - 3]
  }

  /** seg_<digits>.ts with between lo and hi digits (no upper limit when None). */
  function NameIndex(s: string, lo: nat, hi: Option<nat>): Option<nat> {
    if |s| >= 7 && "seg_" <= s && s[|s| - 3..] == ".ts" && AllDigits(Middle(s))
       && lo <= |Middle(s)| && (hi.Some? ==> |Middle(s)| <= hi.value)
    then Some(ParseNat(Middle(s)))
    else None
  }

  function SegmentName(i: nat): string { "seg_" + Padded(i, 4) + ".ts" }

  /** The packager's %04d names survive the parser's reading for every index, and
      the manifest renderer's four-to-six-digit reading exactly below a million. */
  lemma SegmentNameRoundTrip(i: nat)
    ensures NameIndex(SegmentName(i), 1, None) == Some(i)
    ensures NameIndex(SegmentName(i), 4, Some(6)) == if i < 1_000_000 then Some(i) else None
    ensures Strip(SegmentName(i)) == SegmentName(i)
  {
    hide PrintNat, ParseNat, LStrip, RStrip;
    var name := SegmentName(i);
    MillionIsSixDigits();
    NumeralLength(i, 6);
    NameShape(Padded(i, 4));
    StripTight(name);
  }

  lemma NameShape(digits: string)
    ensures var name := "seg_" + digits + ".ts";
            && |name| == |digits| + 7 && "seg_" <= name && name[0] == 's' && name[|name| - 1] == 's'
            && name[|name| - 3..] == ".ts" && Middle(name) == digits
  {
    var name := "seg_" + digits + ".ts";
    assert name == "seg_" + (digits + ".ts");
  }
}
