/** data_plot.py: the classifiers of result-directory names. The two regular
    expressions `^Test_\d{1,2}$` and `^Test_(\d{1,2})$` are written out as predicates:
    `re.match` anchors at the start, Python's `$` matches at the end of the string or
    just before a newline that ends it, and `\d` in a str pattern is any Unicode decimal
    digit (general category Nd), not only '0'-'9'. */
module DataPlot {
  import opened Wrappers
  import opened JStrings

  const TEST_PREFIX: string := "Test_"

  /** `get_test_type`: "All" wins over "Click"; neither gives "". */
  function GetTestType(baseDirectory: string): (r: string)
    ensures r == "All" <==> Contains(baseDirectory, "All")
    ensures r == "Click" <==> !Contains(baseDirectory, "All") && Contains(baseDirectory, "Click")
    ensures r == "" <==> !Contains(baseDirectory, "All") && !Contains(baseDirectory, "Click")
  {
    if Contains(baseDirectory, "All") then "All"
    else if Contains(baseDirectory, "Click") then "Click"
    else ""
  }

  /** c is one of the ten digits that start at code point `zero`. */
  predicate InRun(n: int, zero: int) {
    zero <= n < zero + 10
  }

  /** `\d` of Python's `re` on str patterns: a Unicode decimal digit (general category
      Nd). The runs of ten below, one per digit zero, are those of Unicode 15.0, the
      database of Python 3.12; each run holds the digits 0 to 9 in order. */
  predicate IsDecimal(c: char) {
    var n := c as int;
    InRun(n, 0x30) || InRun(n, 0x660) || InRun(n, 0x6F0) || InRun(n, 0x7C0) || InRun(n, 0x966)
    || InRun(n, 0x9E6) || InRun(n, 0xA66) || InRun(n, 0xAE6) || InRun(n, 0xB66) || InRun(n, 0xBE6)
    || InRun(n, 0xC66) || InRun(n, 0xCE6) || InRun(n, 0xD66) || InRun(n, 0xDE6) || InRun(n, 0xE50)
    || InRun(n, 0xED0) || InRun(n, 0xF20) || InRun(n, 0x1040) || InRun(n, 0x1090) || InRun(n, 0x17E0)
    || InRun(n, 0x1810) || InRun(n, 0x1946) || InRun(n, 0x19D0) || InRun(n, 0x1A80) || InRun(n, 0x1A90)
    || InRun(n, 0x1B50) || InRun(n, 0x1BB0) || InRun(n, 0x1C40) || InRun(n, 0x1C50) || InRun(n, 0xA620)
    || InRun(n, 0xA8D0) || InRun(n, 0xA900) || InRun(n, 0xA9D0) || InRun(n, 0xA9F0) || InRun(n, 0xAA50)
    || InRun(n, 0xABF0) || InRun(n, 0xFF10) || InRun(n, 0x104A0) || InRun(n, 0x10D30) || InRun(n, 0x11066)
    || InRun(n, 0x110F0) || InRun(n, 0x11136) || InRun(n, 0x111D0) || InRun(n, 0x112F0) || InRun(n, 0x11450)
    || InRun(n, 0x114D0) || InRun(n, 0x11650) || InRun(n, 0x116C0) || InRun(n, 0x11730) || InRun(n, 0x118E0)
    || InRun(n, 0x11950) || InRun(n, 0x11C50) || InRun(n, 0x11D50) || InRun(n, 0x11DA0) || InRun(n, 0x11F50)
    || InRun(n, 0x16A60) || InRun(n, 0x16AC0) || InRun(n, 0x16B50) || InRun(n, 0x1D7CE) || InRun(n, 0x1D7D8)
    || InRun(n, 0x1D7E2) || InRun(n, 0x1D7EC) || InRun(n, 0x1D7F6) || InRun(n, 0x1E140) || InRun(n, 0x1E2F0)
    || InRun(n, 0x1E4F0) || InRun(n, 0x1E950) || InRun(n, 0x1FBF0)
  }

  /** One or two decimal digits. */
  predicate ShortNumber(d: string) {
    1 <= |d| <= 2 && forall i | 0 <= i < |d| :: IsDecimal(d[i])
  }

  /** `is_test_directory`: `^Test_\d{1,2}$` matches. `\d{1,2}` takes two digits when it
      can and gives one back if `$` then fails, so the name must end after one or two
      digits, possibly followed by a single final newline. */
  predicate IsTestDirectory(directoryName: string) {
    StartsWith(directoryName, TEST_PREFIX) &&
    var rest := directoryName[|TEST_PREFIX|..];
    ShortNumber(rest) || (|rest| > 0 && rest[|rest| - 1] == '\n' && ShortNumber(rest[..|rest| - 1]))
  }

  /** `get_test_number`: the captured digits (a string, not a number), or None. */
  function GetTestNumber(directoryName: string): (r: Option<string>)
    ensures r.Some? ==> ShortNumber(r.value)
    ensures r.Some? ==> directoryName == TEST_PREFIX + r.value || directoryName == TEST_PREFIX + r.value + "\n"
  {
    if !StartsWith(directoryName, TEST_PREFIX) then None
    else
      var rest := directoryName[|TEST_PREFIX|..];
      assert directoryName == TEST_PREFIX + rest;
      var digits := if |rest| > 0 && rest[|rest| - 1] == '\n' then rest[..|rest| - 1] else rest;
      assert rest == digits || rest == digits + "\n";
      if ShortNumber(digits) then Some(digits) else None
  }

  /** Both functions use the same pattern, so a number is returned exactly for test directories. */
  lemma NumberIffTestDirectory(directoryName: string)
    ensures GetTestNumber(directoryName).Some? <==> IsTestDirectory(directoryName)
  {
  }

  /** Every one- or two-digit name round-trips, with or without a final newline. */
  lemma {:induction false} TestNumberRoundTrip(d: string)
    requires ShortNumber(d)
    ensures GetTestNumber(TEST_PREFIX + d) == Some(d)
    ensures GetTestNumber(TEST_PREFIX + d + "\n") == Some(d)
  {
    assert (TEST_PREFIX + d)[|TEST_PREFIX|..] == d;
    assert (TEST_PREFIX + d + "\n")[|TEST_PREFIX|..] == d + "\n";
    assert (d + "\n")[..|d|] == d;
  }

  /** Every ASCII digit is a decimal digit. */
  lemma AsciiIsDecimal(c: char)
    requires IsDigit(c)
    ensures IsDecimal(c)
  {
  }

  /** A non-ASCII decimal digit counts too: "Test_\u0663" (ARABIC-INDIC DIGIT THREE) is a
      test directory, numbered "\u0663". */
  lemma ArabicIndicDigitAccepted()
    ensures IsTestDirectory("Test_\U{0663}") && GetTestNumber("Test_\U{0663}") == Some("\U{0663}")
  {
    assert IsDecimal('\U{0663}');
    assert "Test_\U{0663}"[5..] == "\U{0663}";
  }

  /** A letter is no digit: "Test_a" is not a test directory. */
  lemma LetterRejected()
    ensures !IsTestDirectory("Test_a") && GetTestNumber("Test_a") == None
  {
    assert "a"[0] == 'a' && !IsDecimal("a"[0]);
    assert "Test_a"[5..] == "a" && !ShortNumber("a");
  }

  /** Three digits are rejected: "Test_100" is not a test directory. */
  lemma ThreeDigitsRejected()
    ensures !IsTestDirectory("Test_100") && GetTestNumber("Test_100") == None
  {
    assert "Test_100"[5..] == "100";
  }
}
