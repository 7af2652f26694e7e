/** The program version and its textual form `major.minor.patch[-pre]`. */
module Versions {
  import opened Base

  datatype Version = Version(major: u32, minor: u32, patch: u32, pre: Option<u32>)

  /** `Version::CURRENT`: 0.5.0, pre-release 5. */
  const CURRENT: Version := Version(0x0, 0x5, 0x0, Some(0x5))

  predicate IsDigit(c: char) {
    '0' <= c <= '9'
  }

  function DigitValue(c: char): nat
    requires IsDigit(c)
  {
    c as int - '0' as int
  }

  function Digit(d: nat): (c: char)
    requires d < 10
    ensures IsDigit(c) && DigitValue(c) == d
  {
    ('0' as int + d) as char
  }

  /** The `{}` formatting of an integer: its decimal digits, without leading zeros. */
  function Decimal(n: nat): (s: string)
    ensures |s| >= 1 && (|s| > 1 ==> s[0] != '0')
    ensures forall i :: 0 <= i < |s| ==> IsDigit(s[i])
  {
    if n < 10 then [Digit(n)] else Decimal(n / 10) + [Digit(n % 10)]
  }

  /** Reading a string of digits back as a number. */
  function ParseDecimal(s: string): nat
    requires forall i :: 0 <= i < |s| ==> IsDigit(s[i])
  {
    if |s| == 0 then 0 else ParseDecimal(s[..|s| - 1]) * 10 + DigitValue(s[|s| - 1])
  }

  /** The decimal text of a number reads back as that number. */
  lemma {:induction false} ParseDecimalInverse(n: nat)
    ensures ParseDecimal(Decimal(n)) == n
  {
    if n >= 10 {
      ParseDecimalInverse(n / 10);
      assert Decimal(n)[..|Decimal(n)| - 1] == Decimal(n / 10);
    }
  }

  /** Different numbers have different decimal texts. */
  lemma DecimalInjective(m: nat, n: nat)
    requires Decimal(m) == Decimal(n)
    ensures m == n
  {
    ParseDecimalInverse(m);
    ParseDecimalInverse(n);
  }

  /** `-pre` when there is a pre-release number, else nothing. */
  function PreSuffix(pre: Option<u32>): string {
    match pre
    case Some(n) => "-" + Decimal(n)
    case None => ""
  }

  /** `impl Display for Version`: the release triple, then `-pre` when there is a pre-release. */
  function Display(v: Version): (text: string)
    ensures |text| >= 5
    ensures IsDigit(text[0]) && IsDigit(text[|text| - 1])
  {
    Decimal(v.major) + "." + Decimal(v.minor) + "." + Decimal(v.patch) + PreSuffix(v.pre)
  }

  /** The current version displays as "0.5.0-5". */
  lemma DisplayCurrent()
    ensures Display(CURRENT) == "0.5.0-5"
  {
  }

  /** A `-` appears in the text exactly when there is a pre-release number. */
  lemma DisplayHasPreIff(v: Version)
    ensures '-' in Display(v) <==> v.pre.Some?
  {
    var release := Decimal(v.major) + "." + Decimal(v.minor) + "." + Decimal(v.patch);
    assert '-' !in release by {
      forall i | 0 <= i < |release|
        ensures release[i] != '-'
      {
        if i < |Decimal(v.major)| {
          assert IsDigit(Decimal(v.major)[i]);
        }
      }
    }
    if v.pre.Some? {
      assert Display(v)[|release|] == '-';
    } else {
      assert Display(v) == release;
    }
  }

  /**
   * A text `a + [c] + b` with no `c` in `a` determines `a` and `b`: the
   * first `c` splits it.
   */
  lemma SplitAtFirst(a: string, b: string, a': string, b': string, c: char)
    requires c !in a && c !in a' && a + [c] + b == a' + [c] + b'
    ensures a == a' && b == b'
  {
    var t := a + [c] + b;
    assert t[|a|] == c && t[|a'|] == c;
    assert a == t[..|a|] == a';
    assert b == t[|a| + 1..] == b';
  }

  /** A decimal text holds neither a dot nor a dash. */
  lemma DecimalHasNoSeparator(n: nat)
    ensures '.' !in Decimal(n) && '-' !in Decimal(n)
  {
    var s := Decimal(n);
    forall i | 0 <= i < |s|
      ensures s[i] != '.' && s[i] != '-'
    {
      assert IsDigit(s[i]);
    }
  }

  /** The text split at its two dots. */
  lemma DisplayParts(v: Version)
    ensures Display(v) == Decimal(v.major) + ['.'] + (Decimal(v.minor) + ['.'] + (Decimal(v.patch) + PreSuffix(v.pre)))
  {
  }

  /** Different versions display differently: the text determines every field. */
  lemma DisplayInjective(v: Version, w: Version)
    requires Display(v) == Display(w)
    ensures v == w
  {
    DisplayParts(v);
    DisplayParts(w);
    DecimalHasNoSeparator(v.major);
    DecimalHasNoSeparator(w.major);
    DecimalHasNoSeparator(v.minor);
    DecimalHasNoSeparator(w.minor);
    SplitAtFirst(Decimal(v.major), Decimal(v.minor) + ['.'] + (Decimal(v.patch) + PreSuffix(v.pre)),
                 Decimal(w.major), Decimal(w.minor) + ['.'] + (Decimal(w.patch) + PreSuffix(w.pre)), '.');
    SplitAtFirst(Decimal(v.minor), Decimal(v.patch) + PreSuffix(v.pre), Decimal(w.minor), Decimal(w.patch) + PreSuffix(w.pre), '.');
    DecimalInjective(v.major, w.major);
    DecimalInjective(v.minor, w.minor);
    PatchAndPre(v, w);
  }

  lemma SuffixHasDash(a: string, pre: Option<u32>)
    requires pre.Some?
    ensures '-' in a + PreSuffix(pre)
  {
    assert (a + PreSuffix(pre))[|a|] == '-';
  }

  /** The last part of the text, `patch` then an optional `-pre`, determines both. */
  lemma PatchAndPre(v: Version, w: Version)
    requires Decimal(v.patch) + PreSuffix(v.pre) == Decimal(w.patch) + PreSuffix(w.pre)
    ensures v.patch == w.patch && v.pre == w.pre
  {
    DecimalHasNoSeparator(v.patch);
    DecimalHasNoSeparator(w.patch);
    var s := Decimal(v.patch) + PreSuffix(v.pre);
    if v.pre.Some? && w.pre.Some? {
      assert s == Decimal(v.patch) + ['-'] + Decimal(v.pre.value);
      assert s == Decimal(w.patch) + ['-'] + Decimal(w.pre.value);
      SplitAtFirst(Decimal(v.patch), Decimal(v.pre.value), Decimal(w.patch), Decimal(w.pre.value), '-');
      DecimalInjective(v.pre.value, w.pre.value);
      DecimalInjective(v.patch, w.patch);
    } else if v.pre.Some? {
      SuffixHasDash(Decimal(v.patch), v.pre);
      assert false;
    } else if w.pre.Some? {
      SuffixHasDash(Decimal(w.patch), w.pre);
      assert false;
    } else {
      assert s == Decimal(v.patch) == Decimal(w.patch);
      DecimalInjective(v.patch, w.patch);
    }
  }
}
