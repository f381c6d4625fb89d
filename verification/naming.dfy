/** Names of the part files: the part number written in decimal and zero-padded to at
    least three digits (Python's `{part_num:03d}`), inside `parte_NNN.pdf`, and, for
    the desktop splitter, prefixed with the input's base name. */
module Naming {
  import opened Outcomes

  predicate IsDigit(c: char) { '0' <= c <= '9' }

  predicate AllDigits(s: string) { forall k :: 0 <= k < |s| ==> IsDigit(s[k]) }

  function DigitChar(d: nat): (c: char)
    requires d < 10
  {
    ('0' as int + d) as char
  }

  function DigitValue(c: char): nat
    requires IsDigit(c)
  {
    c as int - '0' as int
  }

  /** Shortest decimal spelling of `n` (no leading zero except for `n == 0`). */
  function Digits(n: nat): string
  {
    if n < 10 then [DigitChar(n)] else Digits(n / 10) + [DigitChar(n % 10)]
  }

  /** The number a string of decimal digits denotes. */
  function Value(s: string): nat
    requires AllDigits(s)
  {
    if |s| == 0 then 0 else Value(s[..|s| - 1]) * 10 + DigitValue(s[|s| - 1])
  }

  /** `k` zero characters. */
  function Zeros(k: nat): string { seq(k, _ => '0') }

  /** Python's `f"{n:03d}"`: decimal, left-padded with zeros to width 3; wider
      numbers keep all their digits. */
  function Pad3(n: nat): string
  {
    var d := Digits(n);
    if |d| < 3 then Zeros(3 - |d|) + d else d
  }

  /** Part file name produced by the web splitter (pdf_logic.py). */
  function PartName(n: nat): string
  {
    "parte_" + Pad3(n) + ".pdf"
  }

  /** Part file name written by the desktop splitter (app.py `save_part`). */
  function SavedFileName(baseName: string, n: nat): string
  {
    baseName + "_parte_" + Pad3(n) + ".pdf"
  }

  /** Reads the part number back out of a `parte_NNN.pdf` name. */
  function ParsePartName(s: string): Option<nat>
  {
    if |s| >= 13 && s[..6] == "parte_" && s[|s| - 4..] == ".pdf" && AllDigits(s[6..|s| - 4])
    then Some(Value(s[6..|s| - 4]))
    else None
  }

  /** Decimal spelling is a digit string denoting the number. */
  lemma {:induction false} DigitsRoundTrip(n: nat)
    ensures AllDigits(Digits(n))
    ensures Value(Digits(n)) == n
    decreases n
  {
    if n >= 10 {
      DigitsRoundTrip(n / 10);
      var d := Digits(n);
      assert d[..|d| - 1] == Digits(n / 10);
    }
  }

  /** The decimal spelling has at most three digits exactly for numbers below 1000. */
  lemma {:induction false} DigitsLength(n: nat)
    ensures n < 10 ==> |Digits(n)| == 1
    ensures 10 <= n < 100 ==> |Digits(n)| == 2
    ensures 100 <= n < 1000 ==> |Digits(n)| == 3
    ensures n >= 1000 ==> |Digits(n)| >= 4
    decreases n
  {
    if n >= 10 {
      DigitsLength(n / 10);
    }
  }

  /** Leading zeros do not change the value of a digit string. */
  lemma {:induction false} ZerosPrefix(k: nat, s: string)
    requires AllDigits(s)
    ensures AllDigits(Zeros(k) + s)
    ensures Value(Zeros(k) + s) == Value(s)
    decreases |s|, k
  {
    var z := Zeros(k) + s;
    if |s| == 0 {
      if k > 0 {
        assert z[..|z| - 1] == Zeros(k - 1) + s;
        ZerosPrefix(k - 1, s);
      }
    } else {
      assert z[..|z| - 1] == Zeros(k) + s[..|s| - 1];
      ZerosPrefix(k, s[..|s| - 1]);
    }
  }

  /** The padded spelling is a digit string of width exactly 3 for part numbers up to
      999 (wider ones keep all their digits), and it still denotes the number. */
  lemma Pad3Decodes(n: nat)
    ensures AllDigits(Pad3(n))
    ensures Value(Pad3(n)) == n
    ensures |Pad3(n)| == if n < 1000 then 3 else |Digits(n)|
    ensures |Pad3(n)| >= 3
  {
    DigitsRoundTrip(n);
    DigitsLength(n);
    var d := Digits(n);
    if |d| < 3 {
      ZerosPrefix(3 - |d|, d);
    }
  }

  /** Decoding a generated part name gives back its part number. */
  lemma PartNameRoundTrip(n: nat)
    ensures ParsePartName(PartName(n)) == Some(n)
  {
    Pad3Decodes(n);
    var s := PartName(n);
    assert s[..6] == "parte_";
    assert s[|s| - 4..] == ".pdf";
    assert s[6..|s| - 4] == Pad3(n);
  }

  /** Distinct part numbers give distinct part file names. */
  lemma PartNameInjective(a: nat, b: nat)
    requires PartName(a) == PartName(b)
    ensures a == b
  {
    PartNameRoundTrip(a);
    PartNameRoundTrip(b);
  }

  /** The desktop name is the base name, an underscore and the web part name; this is
      also how the web service names the part inside its archive (server.py). */
  lemma SavedFileNameShape(baseName: string, n: nat)
    ensures SavedFileName(baseName, n) == baseName + "_" + PartName(n)
    ensures |SavedFileName(baseName, n)| >= |baseName| + 14
  {
    Pad3Decodes(n);
  }

  /** For one input file, distinct part numbers are saved under distinct names. */
  lemma SavedFileNameInjective(baseName: string, a: nat, b: nat)
    requires SavedFileName(baseName, a) == SavedFileName(baseName, b)
    ensures a == b
  {
    SavedFileNameShape(baseName, a);
    SavedFileNameShape(baseName, b);
    var sa := SavedFileName(baseName, a);
    assert sa[|baseName| + 1..] == PartName(a);
    assert SavedFileName(baseName, b)[|baseName| + 1..] == PartName(b);
    PartNameInjective(a, b);
  }
}
