/**
 * The parts of the Java standard library whose exact behaviour the store
 * depends on: String.split(",") with its trailing-empty-field rule,
 * Integer.parseInt, decimal printing of an int (""+i) and sorting a list of
 * Integers ascending.
 */
module JavaText {
  import opened Wrappers

  // ---------------------------------------------------------------------
  // String.split(",")
  // ---------------------------------------------------------------------

  predicate CommaFree(s: string) {
    ',' !in s
  }

  predicate AllCommaFree(fs: seq<string>) {
    forall i :: 0 <= i < |fs| ==> CommaFree(fs[i])
  }

  /** Joins fields with a comma between consecutive ones. */
  function JoinWithCommas(fs: seq<string>): string
    requires |fs| >= 1
  {
    if |fs| == 1 then fs[0] else fs[0] + "," + JoinWithCommas(fs[1..])
  }

  /**
   * Every comma-separated field of `s`, empty ones included: a string with n
   * commas has n + 1 fields. Joining them back gives `s`.
   */
  function Fields(s: string): (r: seq<string>)
    ensures |r| >= 1
    ensures AllCommaFree(r)
    ensures JoinWithCommas(r) == s
  {
    if s == [] then
      [""]
    else
      var rest := Fields(s[1..]);
      if s[0] == ',' then
        [""] + rest
      else
        assert JoinWithCommas([[s[0]] + rest[0]] + rest[1..]) == [s[0]] + JoinWithCommas(rest);
        [[s[0]] + rest[0]] + rest[1..]
  }

  /** Drops every empty field at the end, as split with limit 0 does. */
  function DropTrailingEmpty(fs: seq<string>): (r: seq<string>)
    ensures |r| <= |fs| && r == fs[..|r|]
    ensures r == [] || r[|r| - 1] != ""
    ensures forall i :: |r| <= i < |fs| ==> fs[i] == ""
  {
    if fs == [] then []
    else if fs[|fs| - 1] == "" then DropTrailingEmpty(fs[..|fs| - 1])
    else fs
  }

  /**
   * Java's line.split(","): a string without a comma (the empty string
   * included) gives itself as the only field; otherwise the fields with the
   * trailing empty ones removed, so that "," gives no field at all.
   */
  function Split(s: string): (r: seq<string>)
    ensures AllCommaFree(r)
    ensures CommaFree(s) ==> r == [s]
    ensures !CommaFree(s) ==>
      && |r| <= |Fields(s)| && r == Fields(s)[..|r|]
      && (r == [] || r[|r| - 1] != "")
      && (forall i :: |r| <= i < |Fields(s)| ==> Fields(s)[i] == "")
  {
    if CommaFree(s) then [s] else DropTrailingEmpty(Fields(s))
  }

  /** Writes each field followed by a comma, as doWrite does. */
  function JoinTerminated(fs: seq<string>): string {
    if fs == [] then "" else fs[0] + "," + JoinTerminated(fs[1..])
  }

  /** Writing one more field extends the text by that field and a comma. */
  lemma {:induction false} JoinTerminatedSnoc(fs: seq<string>, x: string)
    ensures JoinTerminated(fs + [x]) == JoinTerminated(fs) + x + ","
  {
    if fs == [] {
      assert fs + [x] == [x];
    } else {
      JoinTerminatedSnoc(fs[1..], x);
      assert (fs + [x])[1..] == fs[1..] + [x];
    }
  }

  lemma {:induction false} FieldsAfterComma(a: string, b: string)
    requires CommaFree(a)
    ensures Fields(a + "," + b) == [a] + Fields(b)
  {
    if a == [] {
      assert a + "," + b == [','] + b;
      assert (a + "," + b)[1..] == b;
    } else {
      var s := a + "," + b;
      assert s[0] == a[0] && s[0] != ',';
      assert s[1..] == a[1..] + "," + b;
      FieldsAfterComma(a[1..], b);
      var rest := Fields(s[1..]);
      assert rest == [a[1..]] + Fields(b);
      assert Fields(s) == [[s[0]] + rest[0]] + rest[1..];
      assert [a[0]] + a[1..] == a;
    }
  }

  lemma {:induction false} FieldsOfTerminated(fs: seq<string>)
    requires AllCommaFree(fs)
    ensures Fields(JoinTerminated(fs)) == fs + [""]
  {
    if fs != [] {
      FieldsOfTerminated(fs[1..]);
      FieldsAfterComma(fs[0], JoinTerminated(fs[1..]));
      assert [fs[0]] + (fs[1..] + [""]) == fs + [""];
    }
  }

  /**
   * Splitting comma-terminated comma-free fields gives them back, provided
   * the last one is not empty (otherwise split would drop it).
   */
  lemma SplitTerminated(fs: seq<string>)
    requires |fs| >= 1 && AllCommaFree(fs) && fs[|fs| - 1] != ""
    ensures Split(JoinTerminated(fs)) == fs
  {
    var s := JoinTerminated(fs);
    assert s == fs[0] + "," + JoinTerminated(fs[1..]);
    assert s[|fs[0]|] == ',';
    FieldsOfTerminated(fs);
    assert (fs + [""])[..|fs|] == fs;
  }

  // ---------------------------------------------------------------------
  // Integer.parseInt and ""+i
  // ---------------------------------------------------------------------

  const IntMin: int := -0x8000_0000
  const IntMax: int := 0x7FFF_FFFF

  predicate IsInt32(i: int) {
    IntMin <= i <= IntMax
  }

  predicate IsDigit(c: char) {
    '0' <= c <= '9'
  }

  predicate AllDigits(s: string) {
    forall i :: 0 <= i < |s| ==> IsDigit(s[i])
  }

  /** The value of a string of decimal digits, most significant first. */
  function DigitsValue(s: string): nat
    requires AllDigits(s)
  {
    if s == [] then 0
    else DigitsValue(s[..|s| - 1]) * 10 + (s[|s| - 1] as int - '0' as int)
  }

  /**
   * Integer.parseInt(s) over ASCII digits: an optional '+' or '-' followed by
   * at least one digit, with a value in the 32-bit range; None stands for the
   * NumberFormatException thrown otherwise.
   */
  function ParseInt(s: string): (r: Option<int>)
    ensures r.Some? ==> IsInt32(r.value)
  {
    if s == [] then None
    else if s[0] == '-' || s[0] == '+' then
      var digits := s[1..];
      if digits == [] || !AllDigits(digits) then None
      else
        var v: int := if s[0] == '-' then -(DigitsValue(digits) as int) else DigitsValue(digits);
        if IsInt32(v) then Some(v) else None
    else if !AllDigits(s) then None
    else if DigitsValue(s) <= IntMax then Some(DigitsValue(s))
    else None
  }

  function DigitChar(d: nat): (c: char)
    requires d < 10
    ensures IsDigit(c) && c as int - '0' as int == d
  {
    ('0' as int + d) as char
  }

  /** The shortest decimal spelling of n: digits only, no leading zero. */
  function NatToString(n: nat): (r: string)
    ensures r != [] && AllDigits(r) && DigitsValue(r) == n
    ensures |r| > 1 ==> r[0] != '0'
  {
    if n < 10 then [DigitChar(n)]
    else
      var r := NatToString(n / 10) + [DigitChar(n % 10)];
      assert r[..|r| - 1] == NatToString(n / 10);
      r
  }

  /** ""+i for a Java int: a minus sign for negatives, then NatToString. */
  function IntToString(i: int): (r: string)
    ensures |r| > 0 && (r[0] == '-' <==> i < 0)
  {
    if i < 0 then "-" + NatToString(-i) else NatToString(i)
  }

  /** After the optional minus sign come only digits, and they spell |i|. */
  lemma IntToStringDigits(i: int)
    ensures i >= 0 ==> AllDigits(IntToString(i)) && DigitsValue(IntToString(i)) == i
    ensures i < 0 ==> AllDigits(IntToString(i)[1..]) && DigitsValue(IntToString(i)[1..]) == -i
  {
    if i < 0 {
      assert IntToString(i)[1..] == NatToString(-i);
    }
  }

  /** Printing an int and parsing it back gives the same int. */
  lemma ParseIntToString(i: int)
    requires IsInt32(i)
    ensures ParseInt(IntToString(i)) == Some(i)
  {
    if i < 0 {
      var s := IntToString(i);
      assert s[1..] == NatToString(-i);
    }
  }

  /** A key that is exactly how ""+i prints its own parsed value. */
  predicate IsCanonicalInt(s: string) {
    ParseInt(s).Some? && IntToString(ParseInt(s).value) == s
  }

  /** Two canonical strings with the same value are the same string. */
  lemma CanonicalInjective(s: string, t: string)
    requires IsCanonicalInt(s) && IsCanonicalInt(t)
    requires ParseInt(s) == ParseInt(t)
    ensures s == t
  {
  }

  // ---------------------------------------------------------------------
  // Collections.sort on a list of Integers
  // ---------------------------------------------------------------------

  predicate SortedAsc(xs: seq<int>) {
    forall i, j :: 0 <= i < j < |xs| ==> xs[i] <= xs[j]
  }

  /** Puts x into a sorted list before the first element not smaller than it. */
  function Insert(xs: seq<int>, x: int): (r: seq<int>)
    requires SortedAsc(xs)
    ensures SortedAsc(r)
    ensures multiset(r) == multiset(xs) + multiset{x}
    ensures |r| == |xs| + 1 && (r[0] == x || (xs != [] && r[0] == xs[0]))
  {
    if xs == [] then [x]
    else if x <= xs[0] then [x] + xs
    else
      assert xs == [xs[0]] + xs[1..];
      [xs[0]] + Insert(xs[1..], x)
  }

  /** The ascending rearrangement of `xs`: sorted, and a permutation of it. */
  function SortAsc(xs: seq<int>): (r: seq<int>)
    ensures SortedAsc(r)
    ensures multiset(r) == multiset(xs)
  {
    if xs == [] then []
    else
      assert xs == xs[..|xs| - 1] + [xs[|xs| - 1]];
      Insert(SortAsc(xs[..|xs| - 1]), xs[|xs| - 1])
  }
}
