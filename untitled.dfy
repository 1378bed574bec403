/** Names for new, unsaved documents: "Untitled", then "Untitled_1",
    "Untitled_2", ... choosing the first one no open document uses
    (MainWindow::UniqueUntitledNameEx in source/MainWindow.cpp). */
module Untitled {
  import opened Strings

  const BaseName: string := "Untitled"
  const NumberedPrefix: string := "Untitled_"

  /** The i-th candidate name. */
  function UntitledName(i: nat): (name: string)
    ensures |name| >= |BaseName| && name[..|BaseName|] == BaseName
    ensures i == 0 <==> |name| == |BaseName|
  {
    if i == 0 then BaseName else NumberedPrefix + Decimal(i)
  }

  /** The number a candidate name carries: the inverse of UntitledName. */
  function UntitledIndex(name: string): Option<int> {
    if name == BaseName then Some(0)
    else if |name| > |NumberedPrefix| && name[..|NumberedPrefix|] == NumberedPrefix then
      ToInt(name[|NumberedPrefix|..])
    else None
  }

  /** Every candidate name carries the number it was made from. */
  lemma UntitledIndexOfName(i: nat)
    requires i <= INT32_MAX
    ensures UntitledIndex(UntitledName(i)) == Some(i)
  {
    if i > 0 {
      var name := UntitledName(i);
      DecimalSign(i);
      assert name != BaseName by {
        assert |name| > |BaseName|;
      }
      assert name[|NumberedPrefix|..] == Decimal(i);
      ToIntDecimal(i);
    }
  }

  /** Distinct numbers give distinct names. */
  lemma UntitledNameInjective(i: nat, j: nat)
    requires i <= INT32_MAX && j <= INT32_MAX
    requires UntitledName(i) == UntitledName(j)
    ensures i == j
  {
    UntitledIndexOfName(i);
    UntitledIndexOfName(j);
  }

  /** Every candidate below `n` is the name of some open document. */
  predicate TakenBelow(filenames: seq<string>, n: nat) {
    forall j :: 0 <= j < n ==> UntitledName(j) in filenames
  }

  /** A set of values each found in a sequence is no larger than it. */
  lemma {:induction false} SetWithinSeq(seen: set<string>, s: seq<string>)
    requires forall x :: x in seen ==> x in s
    ensures |seen| <= |s|
    decreases |s|
  {
    if s != [] {
      var rest := seen - {s[0]};
      assert forall x :: x in rest ==> x in s[1..] by {
        forall x | x in rest ensures x in s[1..] {
          assert x in s && x != s[0];
          var k :| 0 <= k < |s| && s[k] == x;
          assert s[1..][k - 1] == x;
        }
      }
      SetWithinSeq(rest, s[1..]);
    } else {
      assert seen == {};
    }
  }

  /** The first `n` candidate names. */
  function NamesBelow(n: nat): set<string> {
    set j | 0 <= j < n :: UntitledName(j)
  }

  /** The first `n` candidates are `n` different names. */
  lemma {:induction false} NamesBelowCount(n: nat)
    requires n <= INT32_MAX
    ensures |NamesBelow(n)| == n
  {
    if n > 0 {
      NamesBelowCount(n - 1);
      NamesBelowGrow(n - 1);
    }
  }

  /** Adding candidate `m` to the first `m` candidates adds a new name. */
  lemma NamesBelowGrow(m: nat)
    requires m < INT32_MAX
    ensures NamesBelow(m + 1) == NamesBelow(m) + {UntitledName(m)}
    ensures UntitledName(m) !in NamesBelow(m)
  {
    forall j | 0 <= j < m ensures UntitledName(j) != UntitledName(m) {
      if UntitledName(j) == UntitledName(m) {
        UntitledNameInjective(j, m);
      }
    }
  }

  /** When the first `n` candidates are all taken, there are at least `n`
      open documents. */
  lemma TakenBelowNeedsDocuments(filenames: seq<string>, n: nat)
    requires n <= INT32_MAX && TakenBelow(filenames, n)
    ensures |filenames| >= n
  {
    NamesBelowCount(n);
    SetWithinSeq(NamesBelow(n), filenames);
  }

  /** UniqueUntitledNameEx over the file names of all open documents: the
      first candidate that no document uses, or "" (a null QString) when
      every candidate below INT_MAX is taken. */
  method UniqueUntitledName(filenames: seq<string>) returns (name: string)
    ensures name == [] <==> TakenBelow(filenames, INT32_MAX)
    ensures name != [] ==> name !in filenames
    ensures name != [] ==>
      exists i :: 0 <= i < INT32_MAX && name == UntitledName(i) && TakenBelow(filenames, i)
    ensures |filenames| < INT32_MAX ==> name != []
  {
    var i := 0;
    while i < INT32_MAX
      invariant 0 <= i <= INT32_MAX
      invariant TakenBelow(filenames, i)
    {
      var candidate := if i == 0 then BaseName else NumberedPrefix + Decimal(i);
      assert candidate == UntitledName(i);
      if candidate !in filenames {
        name := candidate;
        assert !TakenBelow(filenames, INT32_MAX) by {
          assert UntitledName(i) !in filenames;
        }
        return;
      }
      i := i + 1;
    }
    TakenBelowNeedsDocuments(filenames, INT32_MAX);
    name := [];
  }
}
