/**
 * The name of the file the renderer is told to write for a frame:
 * `"%s%09d" % (prefix, index)` followed by `.png`, joined to the output
 * directory the way `os.path.join` joins two components.
 *
 * The functions carry no postconditions of their own, so that a caller that
 * only passes a path around does not pay for its shape; the facts about them
 * are the lemmas below.
 */
module Naming {

  /** The fixed width of the zero-padded frame number. */
  const FrameDigits: nat := 9

  /** The fixed extension of every rendered file. */
  const Extension: string := ".png"

  /** The path separator `os.path.join` inserts. */
  const Sep: char := '/'

  predicate IsDigit(c: char) {
    '0' <= c <= '9'
  }

  predicate AllDigits(s: string) {
    forall i :: 0 <= i < |s| ==> IsDigit(s[i])
  }

  predicate StartsWithSep(s: string) {
    s != [] && s[0] == Sep
  }

  function DigitChar(d: nat): (c: char)
    requires d < 10
    ensures IsDigit(c)
  {
    ('0' as int + d) as char
  }

  function DigitValue(c: char): (d: nat)
    requires IsDigit(c)
    ensures d < 10 && DigitChar(d) == c
  {
    c as int - '0' as int
  }

  function Pow10(k: nat): nat {
    if k == 0 then 1 else 10 * Pow10(k - 1)
  }

  /** The decimal numeral of `n`, without leading zeros (`str(n)`). */
  function DecimalDigits(n: nat): string {
    if n < 10 then [DigitChar(n)] else DecimalDigits(n / 10) + [DigitChar(n % 10)]
  }

  /** The value of a decimal numeral; leading zeros are allowed. */
  function ParseDecimal(s: string): nat
    requires AllDigits(s)
  {
    if s == [] then 0 else ParseDecimal(s[..|s| - 1]) * 10 + DigitValue(s[|s| - 1])
  }

  /** `k` zero characters. */
  function Zeros(k: nat): string {
    if k == 0 then [] else Zeros(k - 1) + ['0']
  }

  /** `s` padded on the left with zeros up to `width` characters; never truncated. */
  function ZeroPad(s: string, width: nat): string {
    if |s| >= width then s else Zeros(width - |s|) + s
  }

  /** `"%09d" % n` for a non-negative `n`. */
  function FormatFrameNumber(n: nat): string {
    ZeroPad(DecimalDigits(n), FrameDigits)
  }

  /** `build_current_filename`: prefix, padded frame number, `.png`. */
  function FrameFileName(prefix: string, index: nat): string {
    prefix + FormatFrameNumber(index) + Extension
  }

  /**
   * `os.path.join(dir, name)` for two components: an absolute `name` replaces
   * `dir`; otherwise a separator is inserted unless `dir` is empty or already
   * ends with one.
   */
  function JoinPath(dir: string, name: string): string {
    if StartsWithSep(name) then name
    else if dir == [] || dir[|dir| - 1] == Sep then dir + name
    else dir + [Sep] + name
  }

  /** `build_current_output_path`: the frame's file name under `dir`. */
  function OutputPath(dir: string, prefix: string, index: nat): string {
    JoinPath(dir, FrameFileName(prefix, index))
  }

  /** The part of an output path before the prefix: it depends on neither the frame nor its digits. */
  function PathLead(dir: string, prefix: string): string {
    if StartsWithSep(prefix) then []
    else if dir == [] || dir[|dir| - 1] == Sep then dir
    else dir + [Sep]
  }

  // ---------------------------------------------------------------------------
  // Shape of the pieces

  /** `str(n)` is a non-empty numeral with no leading zero. */
  lemma {:induction false} DecimalDigitsShape(n: nat)
    ensures var s := DecimalDigits(n); |s| >= 1 && AllDigits(s) && (|s| > 1 ==> s[0] != '0')
  {
    if n >= 10 {
      DecimalDigitsShape(n / 10);
    }
  }

  lemma {:induction false} ZerosShape(k: nat)
    ensures |Zeros(k)| == k
    ensures forall i :: 0 <= i < k ==> Zeros(k)[i] == '0'
  {
    if k > 0 {
      ZerosShape(k - 1);
    }
  }

  /** Padding keeps the numeral as a suffix, adds only zeros and never truncates. */
  lemma ZeroPadShape(s: string, width: nat)
    ensures var r := ZeroPad(s, width);
      && |r| == (if |s| >= width then |s| else width)
      && r[|r| - |s|..] == s
      && (forall i :: 0 <= i < |r| - |s| ==> r[i] == '0')
  {
    if |s| < width {
      ZerosShape(width - |s|);
    }
  }

  /** The padded frame number is a numeral of at least nine digits. */
  lemma FrameNumberShape(n: nat)
    ensures AllDigits(FormatFrameNumber(n)) && |FormatFrameNumber(n)| >= FrameDigits
  {
    var d := DecimalDigits(n);
    DecimalDigitsShape(n);
    ZeroPadShape(d, FrameDigits);
    var r := FormatFrameNumber(n);
    forall i | 0 <= i < |r|
      ensures IsDigit(r[i])
    {
      if i >= |r| - |d| {
        assert r[i] == r[|r| - |d|..][i - (|r| - |d|)];
      }
    }
  }

  /** `os.path.join` puts the name last, after the directory and at most one inserted separator. */
  lemma JoinPathSplit(dir: string, name: string)
    ensures JoinPath(dir, name)
         == (if StartsWithSep(name) then [] else if dir == [] || dir[|dir| - 1] == Sep then dir else dir + [Sep]) + name
  {
  }

  /** An output path is the lead, the prefix, the padded frame number and `.png`, in that order. */
  lemma OutputPathSplit(dir: string, prefix: string, i: nat)
    ensures OutputPath(dir, prefix, i) == PathLead(dir, prefix) + prefix + FormatFrameNumber(i) + Extension
  {
    var a := FormatFrameNumber(i);
    var name := FrameFileName(prefix, i);
    FrameNumberShape(i);
    assert StartsWithSep(name) <==> StartsWithSep(prefix) by {
      if prefix == [] {
        assert name[0] == a[0] && IsDigit(a[0]);
      } else {
        assert name[0] == prefix[0];
      }
    }
    JoinPathSplit(dir, name);
  }

  // ---------------------------------------------------------------------------
  // Round trip and injectivity

  /** Parsing what `str` prints gives the number back. */
  lemma {:induction false} ParseDecimalDigits(n: nat)
    ensures AllDigits(DecimalDigits(n)) && ParseDecimal(DecimalDigits(n)) == n
  {
    DecimalDigitsShape(n);
    if n >= 10 {
      var s := DecimalDigits(n);
      assert s[..|s| - 1] == DecimalDigits(n / 10);
      ParseDecimalDigits(n / 10);
    }
  }

  /** Leading zeros do not change the value of a numeral. */
  lemma {:induction false} ParseIgnoresLeadingZeros(k: nat, s: string)
    requires AllDigits(s)
    ensures AllDigits(Zeros(k) + s) && ParseDecimal(Zeros(k) + s) == ParseDecimal(s)
  {
    ZerosShape(k);
    var t := Zeros(k) + s;
    assert AllDigits(t) by {
      forall i | 0 <= i < |t|
        ensures IsDigit(t[i])
      {
        if i >= k {
          assert t[i] == s[i - k];
        }
      }
    }
    if s == [] {
      assert t == Zeros(k);
      ZerosParseToZero(k);
    } else {
      assert t[..|t| - 1] == Zeros(k) + s[..|s| - 1];
      ParseIgnoresLeadingZeros(k, s[..|s| - 1]);
    }
  }

  lemma {:induction false} ZerosParseToZero(k: nat)
    ensures AllDigits(Zeros(k)) && ParseDecimal(Zeros(k)) == 0
  {
    ZerosShape(k);
    if k > 0 {
      assert Zeros(k)[..k - 1] == Zeros(k - 1);
      ZerosParseToZero(k - 1);
    }
  }

  /** The padded frame number reads back as the frame number. */
  lemma FrameNumberRoundTrip(n: nat)
    ensures AllDigits(FormatFrameNumber(n)) && ParseDecimal(FormatFrameNumber(n)) == n
  {
    var d := DecimalDigits(n);
    ParseDecimalDigits(n);
    if |d| < FrameDigits {
      ParseIgnoresLeadingZeros(FrameDigits - |d|, d);
    }
  }

  /** A numeral has at most `k` digits exactly when the number is below `10^k`. */
  lemma {:induction false} DigitCountBound(n: nat, k: nat)
    requires k >= 1
    ensures |DecimalDigits(n)| <= k <==> n < Pow10(k)
  {
    if n < 10 {
      Pow10AtLeastTen(k);
    } else if k == 1 {
      DecimalDigitsShape(n / 10);
    } else {
      DigitCountBound(n / 10, k - 1);
      assert n / 10 < Pow10(k - 1) <==> n < 10 * Pow10(k - 1);
    }
  }

  lemma {:induction false} Pow10AtLeastTen(k: nat)
    requires k >= 1
    ensures Pow10(k) >= 10
  {
    if k > 1 {
      Pow10AtLeastTen(k - 1);
    }
  }

  /** Frame numbers below one billion are printed with exactly nine digits, larger ones in full. */
  lemma FrameNumberWidth(n: nat)
    ensures |FormatFrameNumber(n)| == FrameDigits <==> n < Pow10(FrameDigits)
    ensures |FormatFrameNumber(n)| == |DecimalDigits(n)| || |FormatFrameNumber(n)| == FrameDigits
    ensures n >= Pow10(FrameDigits) ==> FormatFrameNumber(n) == DecimalDigits(n)
  {
    DigitCountBound(n, FrameDigits);
    ZeroPadShape(DecimalDigits(n), FrameDigits);
  }

  /**
   * A file name is the prefix, a numeral of at least nine digits that reads
   * back as the frame, and `.png`.
   */
  lemma FrameFileNameParts(prefix: string, index: nat)
    ensures var name := FrameFileName(prefix, index);
      && |prefix| + |Extension| <= |name|
      && name[..|prefix|] == prefix && name[|name| - |Extension|..] == Extension
      && var number := name[|prefix|..|name| - |Extension|];
         |number| >= FrameDigits && AllDigits(number) && ParseDecimal(number) == index
  {
    var name := FrameFileName(prefix, index);
    assert name[|prefix|..|name| - |Extension|] == FormatFrameNumber(index);
    FrameNumberShape(index);
    FrameNumberRoundTrip(index);
  }

  /** Two frames never share a file name. */
  lemma FrameFileNameInjective(prefix: string, i: nat, j: nat)
    requires FrameFileName(prefix, i) == FrameFileName(prefix, j)
    ensures i == j
  {
    assert FrameFileName(prefix, i) == [] + prefix + FormatFrameNumber(i) + Extension;
    assert FrameFileName(prefix, j) == [] + prefix + FormatFrameNumber(j) + Extension;
    MiddleEqual([], prefix, FormatFrameNumber(i), FormatFrameNumber(j), Extension);
    FrameNumberRoundTrip(i);
    FrameNumberRoundTrip(j);
  }

  /** Two frames never share an output path, so no render overwrites another frame's file. */
  lemma OutputPathInjective(dir: string, prefix: string, i: nat, j: nat)
    requires OutputPath(dir, prefix, i) == OutputPath(dir, prefix, j)
    ensures i == j
  {
    OutputPathSplit(dir, prefix, i);
    OutputPathSplit(dir, prefix, j);
    MiddleEqual(PathLead(dir, prefix), prefix, FormatFrameNumber(i), FormatFrameNumber(j), Extension);
    FrameNumberRoundTrip(i);
    FrameNumberRoundTrip(j);
  }

  /** Cancelling a common head and tail of equal strings. */
  lemma MiddleEqual(lead: string, prefix: string, a: string, b: string, tail: string)
    requires lead + prefix + a + tail == lead + prefix + b + tail
    ensures a == b
  {
    var x := lead + prefix + a + tail;
    var y := lead + prefix + b + tail;
    assert |a| == |b|;
    assert a == x[|lead| + |prefix|..|lead| + |prefix| + |a|];
    assert b == y[|lead| + |prefix|..|lead| + |prefix| + |b|];
  }

  // ---------------------------------------------------------------------------
  // The documented scenario: prefix `f`, frames 1 to 3

  lemma EightZeros()
    ensures Zeros(8) == "00000000"
  {
    assert Zeros(1) == "0";
    assert Zeros(2) == "00";
    assert Zeros(3) == "000";
    assert Zeros(4) == "0000";
    assert Zeros(5) == "00000";
    assert Zeros(6) == "000000";
    assert Zeros(7) == "0000000";
  }

  /** The padded numbers of the first and third frames. */
  lemma ExampleFrameNumbers()
    ensures FormatFrameNumber(1) == "000000001"
    ensures FormatFrameNumber(3) == "000000003"
  {
    EightZeros();
    assert DecimalDigits(1) == "1";
    assert DecimalDigits(3) == "3";
  }

  /** The first file name of the scenario. */
  lemma ExampleFileName()
    ensures FrameFileName("f", 1) == "f000000001.png"
  {
    ExampleFrameNumbers();
    assert "f" + "000000001" + Extension == "f000000001.png";
  }

  /** The third frame's path, under an output directory written with or without a trailing separator. */
  lemma ExampleOutputPath(dir: string)
    requires dir == "/tmp/" || dir == "/tmp"
    ensures OutputPath(dir, "f", 3) == "/tmp/f000000003.png"
  {
    ExampleFrameNumbers();
    assert !StartsWithSep("f");
    assert PathLead(dir, "f") == "/tmp/";
    OutputPathSplit(dir, "f", 3);
    assert "/tmp/" + "f" + "000000003" + Extension == "/tmp/f000000003.png";
  }
}
