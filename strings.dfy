/** String and number helpers shared by the editor model: the parts of
    QString, QList and the C library that the modelled code relies on. */
module Strings {

  datatype Option<T> = None | Some(value: T)

  /** QString::startsWith(QChar), and `*argv[i] == c` on a C string. */
  predicate StartsWith(s: string, c: char) {
    |s| > 0 && s[0] == c
  }

  /** QString::indexOf(c, from): the first position at or after `from`
      holding `c`, or -1. */
  function IndexOf(s: string, c: char, from: nat): (k: int)
    requires from <= |s|
    ensures -1 <= k < |s|
    ensures k == -1 ==> forall j :: from <= j < |s| ==> s[j] != c
    ensures k != -1 ==> from <= k && s[k] == c && forall j :: from <= j < k ==> s[j] != c
    decreases |s| - from
  {
    if from == |s| then -1
    else if s[from] == c then from
    else IndexOf(s, c, from + 1)
  }

  /** QString::mid(pos, n): at most `n` characters starting at `pos`. */
  function Mid(s: string, pos: nat, n: nat): (r: string)
    requires pos <= |s|
    ensures |r| <= n && r <= s[pos..]
    ensures pos + n <= |s| ==> r == s[pos..pos + n]
    ensures pos + n > |s| ==> r == s[pos..]
  {
    if pos + n <= |s| then s[pos..pos + n] else s[pos..]
  }

  /** The C string a character buffer holds: everything before its first
      NUL (the whole buffer when there is none). */
  function CString(s: string): (r: string)
    ensures r <= s && '\0' !in r
    ensures |r| < |s| ==> s[|r|] == '\0'
  {
    var k := IndexOf(s, '\0', 0);
    if k == -1 then s else s[..k]
  }

  // ---------------------------------------------------------------------
  // Splitting on a separator and joining back
  // ---------------------------------------------------------------------

  /** The pieces of `s` between occurrences of `sep` (always at least one). */
  function Split(s: string, sep: char): (parts: seq<string>)
    ensures |parts| >= 1
    decreases |s|
  {
    if s == [] then [[]]
    else
      var rest := Split(s[1..], sep);
      if s[0] == sep then [[]] + rest else [[s[0]] + rest[0]] + rest[1..]
  }

  /** The pieces joined with `sep` between neighbours. */
  function Join(parts: seq<string>, sep: char): string
    requires |parts| >= 1
  {
    if |parts| == 1 then parts[0] else parts[0] + [sep] + Join(parts[1..], sep)
  }

  /** No piece holds the separator. */
  lemma {:induction false} SplitPiecesFree(s: string, sep: char)
    ensures forall k :: 0 <= k < |Split(s, sep)| ==> sep !in Split(s, sep)[k]
    decreases |s|
  {
    if s != [] {
      SplitPiecesFree(s[1..], sep);
    }
  }

  /** A string without the separator is a single piece. */
  lemma {:induction false} SplitNone(s: string, sep: char)
    requires sep !in s
    ensures Split(s, sep) == [s]
    decreases |s|
  {
    if s != [] {
      assert s[0] != sep;
      SplitNone(s[1..], sep);
      assert [s[0]] + s[1..] == s;
    }
  }

  /** Splitting at the first separator: the head piece, then the rest. */
  lemma {:induction false} SplitAt(s: string, sep: char, k: nat)
    requires k < |s| && s[k] == sep && sep !in s[..k]
    ensures Split(s, sep) == [s[..k]] + Split(s[k + 1..], sep)
    decreases k
  {
    if k > 0 {
      assert s[0] == s[..k][0];
      var t := s[1..];
      assert t[..k - 1] == s[1..k];
      assert sep !in t[..k - 1];
      SplitAt(t, sep, k - 1);
      assert t[k..] == s[k + 1..];
      assert [s[0]] + s[1..k] == s[..k];
    }
  }

  // A walk that finds each separator from a position on and takes the text
  // before it as the next piece: the facts its loop invariant needs.

  /** With no separator from `index` on, the rest is the last piece. */
  lemma SplitRest(s: string, sep: char, index: nat, done: seq<string>)
    requires index <= |s|
    requires forall j :: index <= j < |s| ==> s[j] != sep
    requires done + Split(s[index..], sep) == Split(s, sep)
    ensures done + [s[index..]] == Split(s, sep)
  {
    var rest := s[index..];
    assert forall j :: 0 <= j < |rest| ==> rest[j] == s[index + j];
    SplitNone(rest, sep);
  }

  /** The text up to the next separator is the next piece. */
  lemma SplitStep(s: string, sep: char, from: nat, next: nat, before: seq<string>, after: seq<string>)
    requires from < next <= |s| && s[next - 1] == sep
    requires forall j :: from <= j < next - 1 ==> s[j] != sep
    requires before + Split(s[from..], sep) == Split(s, sep)
    requires after == before + [s[from..next - 1]]
    ensures after + Split(s[next..], sep) == Split(s, sep)
  {
    PiecesFrom(s, sep, from, next - 1);
    Rebracket(before, s[from..next - 1], Split(s[next..], sep), Split(s[from..], sep), Split(s, sep));
  }

  /** Moving the head of the remaining pieces to the end of those taken. */
  lemma Rebracket(before: seq<string>, head: string, tail: seq<string>, rest: seq<string>, all: seq<string>)
    requires before + rest == all && rest == [head] + tail
    ensures (before + [head]) + tail == all
  {
  }

  /** The pieces from `index` on, when the next separator is at `at`. */
  lemma PiecesFrom(s: string, sep: char, index: nat, at: nat)
    requires index <= at < |s| && s[at] == sep
    requires forall j :: index <= j < at ==> s[j] != sep
    ensures Split(s[index..], sep) == [s[index..at]] + Split(s[at + 1..], sep)
  {
    var rest := s[index..];
    assert rest[..at - index] == s[index..at];
    assert rest[at - index + 1..] == s[at + 1..];
    SplitAt(rest, sep, at - index);
  }

  /** Joining the pieces restores the original string. */
  lemma {:induction false} JoinSplit(s: string, sep: char)
    ensures Join(Split(s, sep), sep) == s
    decreases |s|
  {
    if s != [] {
      var rest := Split(s[1..], sep);
      JoinSplit(s[1..], sep);
      if s[0] == sep {
        JoinCons([], rest, sep);
      } else if |rest| == 1 {
        assert Join(rest, sep) == rest[0];
      } else {
        JoinCons([s[0]] + rest[0], rest[1..], sep);
        assert rest == [rest[0]] + rest[1..];
        JoinCons(rest[0], rest[1..], sep);
      }
      assert s == [s[0]] + s[1..];
    }
  }

  /** Joining a head piece onto further pieces. */
  lemma JoinCons(head: string, tail: seq<string>, sep: char)
    requires |tail| >= 1
    ensures Join([head] + tail, sep) == head + [sep] + Join(tail, sep)
  {
    assert ([head] + tail)[1..] == tail;
  }

  /** Joining pieces with one more piece at the end. */
  lemma {:induction false} JoinSnoc(init: seq<string>, last: string, sep: char)
    requires |init| >= 1
    ensures Join(init + [last], sep) == Join(init, sep) + [sep] + last
    decreases |init|
  {
    if |init| == 1 {
      assert (init + [last])[1..] == [last];
    } else {
      assert (init + [last])[1..] == init[1..] + [last];
      JoinSnoc(init[1..], last, sep);
    }
  }

  /** Splitting a join of separator-free pieces gives the pieces back. */
  lemma {:induction false} SplitJoin(parts: seq<string>, sep: char)
    requires |parts| >= 1
    requires forall k :: 0 <= k < |parts| ==> sep !in parts[k]
    ensures Split(Join(parts, sep), sep) == parts
    decreases |parts|
  {
    if |parts| == 1 {
      SplitNone(parts[0], sep);
    } else {
      var rest := Join(parts[1..], sep);
      var s := parts[0] + [sep] + rest;
      assert s[..|parts[0]|] == parts[0];
      assert s[|parts[0]| + 1..] == rest;
      SplitAt(s, sep, |parts[0]|);
      SplitJoin(parts[1..], sep);
      assert parts == [parts[0]] + parts[1..];
    }
  }

  // ---------------------------------------------------------------------
  // Decimal numbers: QString::arg(int), QString::toInt, sscanf("%d")
  // ---------------------------------------------------------------------

  predicate IsDigit(c: char) { '0' <= c <= '9' }

  predicate AllDigits(s: string) { forall k :: 0 <= k < |s| ==> IsDigit(s[k]) }

  function DigitChar(d: nat): char
    requires d < 10
  {
    (d + '0' as int) as char
  }

  /** The decimal digits of `n`, without leading zeros ("0" for zero). */
  function DecimalDigits(n: nat): (s: string)
    ensures |s| >= 1 && AllDigits(s)
    ensures n >= 10 <==> |s| >= 2
    ensures |s| >= 2 ==> s[0] != '0'
  {
    if n < 10 then [DigitChar(n)] else DecimalDigits(n / 10) + [DigitChar(n % 10)]
  }

  /** How QString::arg formats an int: a minus sign, then the digits. */
  function Decimal(n: int): (s: string)
  {
    if n < 0 then "-" + DecimalDigits(-n) else DecimalDigits(n)
  }

  /** The value of a string of decimal digits. */
  function DigitsValue(s: string): nat
    requires AllDigits(s)
  {
    if s == [] then 0
    else 10 * DigitsValue(s[..|s| - 1]) + (s[|s| - 1] as int - '0' as int)
  }

  lemma {:induction false} DigitsValueOfDecimal(n: nat)
    ensures DigitsValue(DecimalDigits(n)) == n
  {
    if n >= 10 {
      DigitsValueOfDecimal(n / 10);
      var s := DecimalDigits(n);
      assert s[..|s| - 1] == DecimalDigits(n / 10);
    }
  }

  lemma DecimalDigitsInjective(a: nat, b: nat)
    requires DecimalDigits(a) == DecimalDigits(b)
    ensures a == b
  {
    DigitsValueOfDecimal(a);
    DigitsValueOfDecimal(b);
  }

  /** The formatted number starts with a minus sign exactly when negative. */
  lemma DecimalSign(n: int)
    ensures |Decimal(n)| >= 1 && (Decimal(n)[0] == '-' <==> n < 0)
  {
    if n >= 0 {
      assert IsDigit(DecimalDigits(n)[0]);
    }
  }

  /** Formatting is injective, so distinct numbers give distinct strings. */
  lemma DecimalInjective(a: int, b: int)
    requires Decimal(a) == Decimal(b)
    ensures a == b
  {
    DecimalSign(a);
    DecimalSign(b);
    if a < 0 {
      assert b < 0;
      var sa, sb := "-" + DecimalDigits(-a), "-" + DecimalDigits(-b);
      assert sa[1..] == DecimalDigits(-a) && sb[1..] == DecimalDigits(-b);
      DecimalDigitsInjective(-a, -b);
    } else {
      DecimalDigitsInjective(a, b);
    }
  }

  const INT32_MIN: int := -0x8000_0000
  const INT32_MAX: int := 0x7fff_ffff

  predicate IsInt32(n: int) { INT32_MIN <= n <= INT32_MAX }

  /** The whitespace that QString::toInt and sscanf skip. */
  predicate IsSpace(c: char) {
    c == ' ' || c == '\t' || c == '\n' || c == '\r' || c == '\U{000B}' || c == '\U{000C}'
  }

  /** The whitespace at the front of `s`, dropped (as sscanf does for %d). */
  function SkipSpace(s: string): (r: string)
    ensures |r| <= |s|
  {
    if s != [] && IsSpace(s[0]) then SkipSpace(s[1..]) else s
  }

  /** The whitespace at the end of `s`, dropped. */
  function DropTrailingSpace(s: string): (r: string)
    ensures |r| <= |s|
  {
    if s != [] && IsSpace(s[|s| - 1]) then DropTrailingSpace(s[..|s| - 1]) else s
  }

  /** The string without leading and trailing whitespace (QString::trimmed). */
  function Trimmed(s: string): (r: string)
  {
    DropTrailingSpace(SkipSpace(s))
  }

  /** Where a reader of a decimal number is: before the number (skipping
      whitespace), after a sign, inside the digits with the value so far,
      or after the number (skipping whitespace). */
  datatype ReadState = Leading | Signed(negative: bool) | InDigits(negative: bool, value: nat) | Trailing(number: int)

  function WithSign(negative: bool, v: nat): int {
    if negative then -(v as int) else v
  }

  /** A reader of a decimal number from index `i` on, one character at a
      time: leading whitespace, an optional sign, at least one digit. With
      `whole`, only whitespace may follow the digits (QString::toInt);
      without it, whatever follows the digits is ignored (sscanf's %d). */
  function ReadFrom(s: string, i: nat, state: ReadState, whole: bool): Option<int>
    requires i <= |s|
    decreases |s| - i, if state.Leading? then 1 else 0
  {
    if i == |s| then
      match state
      case InDigits(negative, v) => Some(WithSign(negative, v))
      case Trailing(v) => Some(v)
      case _ => None
    else
      var c := s[i];
      match state
      case Leading =>
        if IsSpace(c) then ReadFrom(s, i + 1, Leading, whole)
        else if c == '-' || c == '+' then ReadFrom(s, i + 1, Signed(c == '-'), whole)
        else if IsDigit(c) then ReadFrom(s, i, Signed(false), whole)
        else None
      case Signed(negative) =>
        if IsDigit(c) then ReadFrom(s, i + 1, InDigits(negative, c as int - '0' as int), whole)
        else None
      case InDigits(negative, v) =>
        if IsDigit(c) then ReadFrom(s, i + 1, InDigits(negative, 10 * v + (c as int - '0' as int)), whole)
        else if !whole then Some(WithSign(negative, v))
        else if IsSpace(c) then ReadFrom(s, i + 1, Trailing(WithSign(negative, v)), whole)
        else None
      case Trailing(v) =>
        if IsSpace(c) then ReadFrom(s, i + 1, Trailing(v), whole) else None
  }

  /** QString::toInt(&ok) in base 10: surrounding whitespace allowed, the
      whole rest must be a signed number that fits in 32 bits; None when
      `ok` would be false. */
  function ToInt(s: string): (r: Option<int>)
    ensures r.Some? ==> IsInt32(r.value)
  {
    var v := ReadFrom(s, 0, Leading, true);
    if v.Some? && IsInt32(v.value) then v else None
  }

  /** sscanf(s, "%d", &n) == 1: leading whitespace, an optional sign and at
      least one digit; whatever follows the digits is ignored. */
  function ScanInt(s: string): Option<int>
  {
    ReadFrom(s, 0, Leading, false)
  }

  /** After a sign (or none), a run of digits s[i..j] is read as its
      value. */
  lemma {:induction false} ReadDigits(s: string, i: nat, j: nat, negative: bool, whole: bool)
    requires i < j <= |s|
    requires forall k :: i <= k < j ==> IsDigit(s[k])
    ensures AllDigits(s[i..j])
    ensures ReadFrom(s, i, Signed(negative), whole)
      == ReadFrom(s, j, InDigits(negative, DigitsValue(s[i..j])), whole)
    decreases j - i
  {
    var t := s[i..j];
    if j == i + 1 {
      assert t[..0] == [];
    } else {
      ReadDigits(s, i, j - 1, negative, whole);
      assert t[..|t| - 1] == s[i..j - 1];
    }
  }

  /** The decimal form of `n`, and anything after it that does not start
      with a digit, is read as `n` up to the end of the number. */
  lemma ReadDecimal(n: int, rest: string, whole: bool)
    requires rest == [] || !IsDigit(rest[0])
    ensures var s := Decimal(n) + rest;
      ReadFrom(s, 0, Leading, whole)
        == ReadFrom(s, |Decimal(n)|, InDigits(n < 0, if n < 0 then -n else n), whole)
  {
    var s := Decimal(n) + rest;
    var m := if n < 0 then -n else n;
    var d := DecimalDigits(m);
    var lo := if n < 0 then 1 else 0;
    var hi := |Decimal(n)|;
    assert Decimal(n)[lo..] == d;
    assert s[lo..hi] == d;
    assert IsDigit(s[lo]) by {
      assert s[lo] == d[0];
    }
    forall k | lo <= k < hi ensures IsDigit(s[k]) {
      assert s[k] == d[k - lo];
    }
    ReadDigits(s, lo, hi, n < 0, whole);
    DigitsValueOfDecimal(m);
  }

  /** ToInt reads back what QString::arg(int) writes. */
  lemma ToIntDecimal(n: int)
    requires IsInt32(n)
    ensures ToInt(Decimal(n)) == Some(n)
  {
    ReadDecimal(n, [], true);
    assert Decimal(n) + [] == Decimal(n);
  }

  /** sscanf reads back a number written in decimal, whatever follows it
      once a character that is not a digit comes first. */
  lemma ScanIntDecimal(n: int, rest: string)
    requires rest == [] || !IsDigit(rest[0])
    ensures ScanInt(Decimal(n) + rest) == Some(n)
  {
    ReadDecimal(n, rest, false);
    var s := Decimal(n) + rest;
    if rest != [] {
      assert s[|Decimal(n)|] == rest[0];
    }
  }
}
