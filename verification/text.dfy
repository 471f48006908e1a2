/**
 Character classes and string helpers shared by the line matchers.

 The regular expressions of the C++ revision are QRegularExpression patterns
 compiled without Unicode properties, so `\w`, `\W` and `\d` are the ASCII
 classes; the same classes stand in for Python's `re` classes.
 */
module Text {
  import opened Wrappers

  predicate IsDigit(c: char) {
    '0' <= c <= '9'
  }

  /** `\w`: an ASCII letter, digit or underscore. */
  predicate IsWordChar(c: char) {
    IsDigit(c) || 'a' <= c <= 'z' || 'A' <= c <= 'Z' || c == '_'
  }

  /**
   QChar::isSpace, what QString::trimmed removes: tab to carriage return, the
   space, NEL, and the Unicode space, line and paragraph separators.
   */
  predicate IsSpace(c: char) {
    || '\t' <= c <= '\r' || c == ' ' || c == '\U{0085}' || c == '\U{00A0}'
    || c == '\U{1680}' || '\U{2000}' <= c <= '\U{200A}' || c == '\U{2028}' || c == '\U{2029}'
    || c == '\U{202F}' || c == '\U{205F}' || c == '\U{3000}'
  }

  /**
   Python's str.isspace, what str.strip removes: the characters above and the
   ASCII separators U+001C to U+001F as well.
   */
  predicate IsPySpace(c: char) {
    IsSpace(c) || '\U{001C}' <= c <= '\U{001F}'
  }

  /** The line boundaries of Python's str.splitlines. */
  predicate IsLineBreak(c: char) {
    || c == '\n' || c == '\r' || c == '\U{000B}' || c == '\U{000C}'
    || c == '\U{001C}' || c == '\U{001D}' || c == '\U{001E}'
    || c == '\U{0085}' || c == '\U{2028}' || c == '\U{2029}'
  }

  /** The character sets that the hand-written matchers scan over. */
  datatype CharClass =
    | Digit        // \d
    | Word         // \w
    | NonWord      // \W
    | NameChar     // [\w|.]
    | NotQuote     // [^']
    | NotBracket   // [^\]]
    | Space        // whitespace of QChar::isSpace
    | PySpace      // whitespace of str.isspace
    | LineChar     // [^\r\n]
    | NotNewline   // . (Python re: anything but a line feed)
    | NotBreak     // not a line boundary of str.splitlines
    | Signed       // a digit or '-'

  predicate InClass(c: char, k: CharClass) {
    match k
    case Digit => IsDigit(c)
    case Word => IsWordChar(c)
    case NonWord => !IsWordChar(c)
    case NameChar => IsWordChar(c) || c == '|' || c == '.'
    case NotQuote => c != '\''
    case NotBracket => c != ']'
    case Space => IsSpace(c)
    case PySpace => IsPySpace(c)
    case LineChar => c != '\r' && c != '\n'
    case NotNewline => c != '\n'
    case NotBreak => !IsLineBreak(c)
    case Signed => IsDigit(c) || c == '-'
  }

  predicate AllIn(s: string, k: CharClass) {
    forall i :: 0 <= i < |s| ==> InClass(s[i], k)
  }

  predicate AllDigits(s: string) {
    AllIn(s, Digit)
  }

  /** The end of the longest run of `k` characters of `s` that starts at `i`. */
  function RunEnd(s: string, i: nat, k: CharClass): (e: nat)
    requires i <= |s|
    ensures i <= e <= |s|
    ensures forall j :: i <= j < e ==> InClass(s[j], k)
    ensures e == |s| || !InClass(s[e], k)
    decreases |s| - i
  {
    if i == |s| || !InClass(s[i], k) then i else RunEnd(s, i + 1, k)
  }

  /** A run end is determined by the two properties RunEnd promises. */
  lemma RunEndIs(s: string, i: nat, k: CharClass, e: nat)
    requires i <= e <= |s|
    requires forall j :: i <= j < e ==> InClass(s[j], k)
    requires e == |s| || !InClass(s[e], k)
    ensures RunEnd(s, i, k) == e
  {
  }

  /** Text put in front moves every slice by its length. */
  lemma SliceShift(pre: string, t: string, i: nat, j: nat)
    requires i <= j <= |t|
    ensures (pre + t)[|pre| + i..|pre| + j] == t[i..j]
  {
    var s := pre + t;
    assert forall m :: 0 <= m < j - i ==> s[|pre| + i..|pre| + j][m] == t[i..j][m];
  }

  /** A run of `k` characters followed by a character outside `k` is taken whole. */
  lemma RunPrefix(mid: string, post: string, k: CharClass)
    requires AllIn(mid, k)
    requires post == [] || !InClass(post[0], k)
    ensures RunEnd(mid + post, 0, k) == |mid|
    ensures (mid + post)[..|mid|] == mid && (mid + post)[|mid|..] == post
  {
    var s := mid + post;
    assert forall j :: 0 <= j < |mid| ==> s[j] == mid[j];
    RunEndIs(s, 0, k, |mid|);
  }

  /** Two runs of class `k` each followed by a comma split back uniquely when a comma is not in `k`. */
  lemma CommaSplit(x1: string, y1: string, x2: string, y2: string, k: CharClass)
    requires AllIn(x1, k) && AllIn(x2, k) && !InClass(',', k)
    requires x1 + "," + y1 == x2 + "," + y2
    ensures x1 == x2 && y1 == y2
  {
    var s := x1 + "," + y1;
    RunEndIs(s, 0, k, |x1|);
    RunEndIs(x2 + "," + y2, 0, k, |x2|);
    assert x1 == s[..|x1|] == x2;
    assert y1 == s[|x1| + 1..] == y2;
  }

  /** "usb:", a run of class `k`, a comma and any text: the two parts are read back uniquely. */
  lemma PathSplit(x1: string, y1: string, x2: string, y2: string, k: CharClass)
    requires AllIn(x1, k) && AllIn(x2, k) && !InClass(',', k)
    ensures "usb:" + x1 + "," + y1 == "usb:" + x2 + "," + y2 ==> x1 == x2 && y1 == y2
  {
    var s1, s2 := x1 + "," + y1, x2 + "," + y2;
    assert "usb:" + x1 + "," + y1 == "usb:" + s1;
    assert "usb:" + x2 + "," + y2 == "usb:" + s2;
    if "usb:" + s1 == "usb:" + s2 {
      assert s1 == ("usb:" + s1)[4..] == ("usb:" + s2)[4..] == s2;
      CommaSplit(x1, y1, x2, y2, k);
    }
  }

  /** The largest index in 1..hi whose flag is set: where a greedy match ends its prefix. */
  function LastSet(flags: seq<bool>, hi: nat): (r: Option<nat>)
    requires hi < |flags|
    ensures r.Some? ==> 1 <= r.value <= hi && flags[r.value]
                        && forall j :: r.value < j <= hi ==> !flags[j]
    ensures r.None? ==> forall j :: 1 <= j <= hi ==> !flags[j]
    decreases hi
  {
    if hi == 0 then None
    else if flags[hi] then Some(hi)
    else LastSet(flags, hi - 1)
  }

  /** `t` occurs in `s` at index `i`. */
  predicate StartsAt(s: string, i: nat, t: string) {
    i + |t| <= |s| && s[i..i + |t|] == t
  }

  predicate Contains(s: string, t: string) {
    exists i: nat | i <= |s| :: StartsAt(s, i, t)
  }

  // ---------------------------------------------------------------- trimming

  /** `s` without its leading and trailing characters of class `k`. */
  function StripClass(s: string, k: CharClass): (r: string)
    ensures |r| <= |s|
    ensures r == [] || (!InClass(r[0], k) && !InClass(r[|r| - 1], k))
    ensures AllIn(s, k) ==> r == []
    ensures |s| > 0 && !InClass(s[0], k) && !InClass(s[|s| - 1], k) ==> r == s
    ensures exists a, b :: 0 <= a <= b <= |s| && r == s[a..b] && AllIn(s[..a], k) && AllIn(s[b..], k)
  {
    var a := RunEnd(s, 0, k);
    var b := TrimmedEnd(s, a, |s|, k);
    assert AllIn(s[..a], k) by {
      forall j | 0 <= j < a ensures InClass(s[..a][j], k) {
        assert s[..a][j] == s[j];
      }
    }
    assert AllIn(s[b..], k) by {
      forall j | 0 <= j < |s| - b ensures InClass(s[b..][j], k) {
        assert s[b..][j] == s[b + j];
      }
    }
    s[a..b]
  }

  /** The end of `s[lo..hi]` once its trailing characters of class `k` are dropped. */
  function TrimmedEnd(s: string, lo: nat, hi: nat, k: CharClass): (b: nat)
    requires lo <= hi <= |s|
    ensures lo <= b <= hi
    ensures forall j :: b <= j < hi ==> InClass(s[j], k)
    ensures b == lo || !InClass(s[b - 1], k)
    decreases hi
  {
    if hi == lo || !InClass(s[hi - 1], k) then hi else TrimmedEnd(s, lo, hi - 1, k)
  }

  /** QString::trimmed: leading and trailing QChar::isSpace whitespace removed. */
  function Trim(s: string): (r: string)
    ensures |r| <= |s|
    ensures r == [] || (!IsSpace(r[0]) && !IsSpace(r[|r| - 1]))
    ensures AllIn(s, Space) ==> r == []
    ensures |s| > 0 && !IsSpace(s[0]) && !IsSpace(s[|s| - 1]) ==> r == s
    ensures exists a, b :: 0 <= a <= b <= |s| && r == s[a..b] && AllIn(s[..a], Space) && AllIn(s[b..], Space)
  {
    StripClass(s, Space)
  }

  /** Python's `str.strip()`: leading and trailing str.isspace whitespace removed. */
  function PyStrip(s: string): (r: string)
    ensures |r| <= |s|
    ensures r == [] || (!IsPySpace(r[0]) && !IsPySpace(r[|r| - 1]))
    ensures AllIn(s, PySpace) ==> r == []
    ensures |s| > 0 && !IsPySpace(s[0]) && !IsPySpace(s[|s| - 1]) ==> r == s
    ensures exists a, b :: 0 <= a <= b <= |s| && r == s[a..b] && AllIn(s[..a], PySpace) && AllIn(s[b..], PySpace)
  {
    StripClass(s, PySpace)
  }

  /** Stripping depends only on which characters of `s` are in the class. */
  lemma {:induction false} TrimmedEndAgree(s: string, lo: nat, hi: nat, k1: CharClass, k2: CharClass)
    requires lo <= hi <= |s|
    requires forall j :: 0 <= j < |s| ==> (InClass(s[j], k1) <==> InClass(s[j], k2))
    ensures TrimmedEnd(s, lo, hi, k1) == TrimmedEnd(s, lo, hi, k2)
    decreases hi
  {
    if hi != lo && InClass(s[hi - 1], k1) {
      TrimmedEndAgree(s, lo, hi - 1, k1, k2);
    }
  }

  /**
   The two strips differ only on the separators U+001C to U+001F: on text
   without them, str.strip and QString::trimmed give the same result.
   */
  lemma StripsAgree(s: string)
    requires forall j :: 0 <= j < |s| ==> !('\U{001C}' <= s[j] <= '\U{001F}')
    ensures PyStrip(s) == Trim(s)
  {
    var e := RunEnd(s, 0, Space);
    RunEndIs(s, 0, PySpace, e);
    TrimmedEndAgree(s, e, |s|, Space, PySpace);
  }

  /** A leading U+001F is removed by str.strip and kept by QString::trimmed. */
  lemma UnitSeparatorStripped(name: string)
    requires |name| > 0 && !IsPySpace(name[0]) && !IsPySpace(name[|name| - 1])
    ensures PyStrip(['\U{001F}'] + name) == name
    ensures Trim(['\U{001F}'] + name) == ['\U{001F}'] + name
  {
    var s := ['\U{001F}'] + name;
    assert s[1..] == name;
    RunEndIs(s, 0, PySpace, 1);
    assert TrimmedEnd(s, 1, |s|, PySpace) == |s|;
  }

  // ------------------------------------------------------------ lower case

  function Lower(c: char): char {
    if 'A' <= c <= 'Z' then (c as int + 32) as char else c
  }

  /** Lower-casing of QString::toLower and str.lower on ASCII text. */
  function ToLower(s: string): (r: string)
    ensures |r| == |s|
    ensures forall i :: 0 <= i < |s| ==> r[i] == Lower(s[i])
    ensures forall i :: 0 <= i < |r| ==> !('A' <= r[i] <= 'Z')
  {
    seq(|s|, i requires 0 <= i < |s| => Lower(s[i]))
  }

  // ---------------------------------------------------------------- decimals

  function DigitValue(c: char): nat
    requires IsDigit(c)
  {
    c as int - '0' as int
  }

  function DigitChar(n: nat): (c: char)
    requires n < 10
    ensures IsDigit(c) && DigitValue(c) == n
  {
    ('0' as int + n) as char
  }

  /** The value of a string of decimal digits (`int(s)` / QString::toInt before its range check). */
  function DigitsValue(s: string): nat
    requires AllDigits(s)
  {
    if |s| == 0 then 0 else 10 * DigitsValue(s[..|s| - 1]) + DigitValue(s[|s| - 1])
  }

  /** The decimal form of `n`, without leading zeros (`QString::arg(int)`, `str(n)`). */
  function NatToString(n: nat): (s: string)
    ensures AllDigits(s) && DigitsValue(s) == n
    ensures |s| >= 1
    ensures n < 10 <==> |s| == 1
    ensures n < 100 <==> |s| <= 2
    ensures n < 1000 <==> |s| <= 3
    ensures |s| == 1 || s[0] != '0'
  {
    if n < 10 then [DigitChar(n)]
    else
      var t := NatToString(n / 10);
      var s := t + [DigitChar(n % 10)];
      assert s[..|s| - 1] == t;
      assert s[0] == t[0];
      s
  }

  function Zeros(k: nat): (z: string)
    ensures |z| == k && AllDigits(z)
    ensures forall i :: 0 <= i < k ==> z[i] == '0'
  {
    if k == 0 then [] else ['0'] + Zeros(k - 1)
  }

  lemma {:induction false} LeadingZeros(k: nat, d: string)
    requires AllDigits(d)
    ensures AllDigits(Zeros(k) + d)
    ensures DigitsValue(Zeros(k) + d) == DigitsValue(d)
    decreases |d|
  {
    var z := Zeros(k);
    if |d| == 0 {
      ZerosValue(k);
      assert z + d == z;
    } else {
      var d' := d[..|d| - 1];
      LeadingZeros(k, d');
      assert (z + d)[..|z + d| - 1] == z + d';
    }
  }

  lemma {:induction false} ZerosValue(k: nat)
    ensures DigitsValue(Zeros(k)) == 0
  {
    if k > 0 {
      var z := Zeros(k);
      ZerosValue(k - 1);
      assert z[..k - 1] == Zeros(k - 1) by {
        ZerosAllZero(z[..k - 1], Zeros(k - 1));
      }
    }
  }

  lemma ZerosAllZero(a: string, b: string)
    requires |a| == |b|
    requires forall i :: 0 <= i < |a| ==> a[i] == '0' && b[i] == '0'
    ensures a == b
  {
  }

  /** The decimal form of `n` left-padded with zeros to at least three digits (`%03d`). */
  function Pad3(n: nat): (s: string)
    ensures AllDigits(s) && DigitsValue(s) == n
    ensures n < 1000 <==> |s| == 3
    ensures |s| >= 3
  {
    var d := NatToString(n);
    if |d| < 3 then
      LeadingZeros(3 - |d|, d);
      Zeros(3 - |d|) + d
    else d
  }

  /** Three digits are the padded form of their own value. */
  lemma {:induction false} Pad3OfDigits(s: string)
    requires |s| == 3 && AllDigits(s)
    ensures DigitsValue(s) < 1000
    ensures Pad3(DigitsValue(s)) == s
  {
    var n := DigitsValue(s);
    var s2, s1 := s[..2], s[..1];
    assert s2[..1] == s1 && s2[1] == s[1] && s1[..0] == [];
    assert DigitsValue(s1) == DigitValue(s[0]);
    assert DigitsValue(s2) == 10 * DigitValue(s[0]) + DigitValue(s[1]);
    assert n == 100 * DigitValue(s[0]) + 10 * DigitValue(s[1]) + DigitValue(s[2]);
    var p := Pad3(n);
    DigitStringsEqual(p, s);
  }

  /** A decimal number determines its last digit and the number before it. */
  lemma LastDigitSplit(va: nat, x: nat, vb: nat, y: nat)
    requires x < 10 && y < 10 && 10 * va + x == 10 * vb + y
    ensures va == vb && x == y
  {
  }

  /** Two digit strings of the same length and value are the same string. */
  lemma {:induction false} DigitStringsEqual(a: string, b: string)
    requires AllDigits(a) && AllDigits(b) && |a| == |b|
    requires DigitsValue(a) == DigitsValue(b)
    ensures a == b
    decreases |a|
  {
    if |a| > 0 {
      var n := |a| - 1;
      var x, y := DigitValue(a[n]), DigitValue(b[n]);
      var va, vb := DigitsValue(a[..n]), DigitsValue(b[..n]);
      assert 10 * va + x == 10 * vb + y;
      LastDigitSplit(va, x, vb, y);
      DigitStringsEqual(a[..n], b[..n]);
      assert a == a[..n] + [a[n]] && b == b[..n] + [b[n]];
    }
  }

  const MaxInt32: nat := 0x7FFF_FFFF

  /**
   QString::toInt on a captured run of digits: the value when it fits a
   32-bit int, and 0 (the failure result) when it does not.
   */
  function ToInt32(s: string): (r: nat)
    requires AllDigits(s)
    ensures r <= MaxInt32
    ensures DigitsValue(s) <= MaxInt32 ==> r == DigitsValue(s)
    ensures DigitsValue(s) > MaxInt32 ==> r == 0
  {
    var v := DigitsValue(s);
    if v <= MaxInt32 then v else 0
  }

  // -------------------------------------------------------------- searching

  /** The index just after the last `c` in `s`, if `s` holds a `c`. */
  function AfterLast(s: string, c: char): (r: Option<nat>)
    ensures r.Some? ==> 1 <= r.value <= |s| && s[r.value - 1] == c
                        && forall j :: r.value <= j < |s| ==> s[j] != c
    ensures r.None? ==> forall j :: 0 <= j < |s| ==> s[j] != c
  {
    if |s| == 0 then None
    else if s[|s| - 1] == c then Some(|s|)
    else AfterLast(s[..|s| - 1], c)
  }
}
