/** Small decisions of the editor window (source/MainWindow.cpp): moving to
    the next or previous document, the incremental-search toggles and the
    search type they stand for, and the labels accepted for marks. */
module WindowRules {
  import opened Strings

  // -----------------------------------------------------------------------
  // Next / previous document
  // -----------------------------------------------------------------------

  /** The focused document: a window (in MainWindow::allWindows order) and
      a tab within it. */
  datatype Position = Position(window: nat, tab: nat)

  /** Each window has at least one tab; `p` is one of them. */
  predicate ValidPosition(tabCounts: seq<nat>, p: Position) {
    (forall w :: 0 <= w < |tabCounts| ==> tabCounts[w] >= 1)
    && p.window < |tabCounts| && p.tab < tabCounts[p.window]
  }

  /** action_Next_Document. Without cross-window navigation the tab index
      wraps within the window; with it, moving on from the last tab goes
      to the first tab of the next window, wrapping over the window list. */
  function NextDocument(tabCounts: seq<nat>, p: Position, crossWindows: bool): (r: Position)
    requires ValidPosition(tabCounts, p)
    ensures ValidPosition(tabCounts, r)
    ensures !crossWindows || p.tab + 1 < tabCounts[p.window] ==> r.window == p.window
    ensures crossWindows && p.tab + 1 == tabCounts[p.window] ==> r.tab == 0
  {
    var nextIndex := p.tab + 1;
    var tabCount := tabCounts[p.window];
    if !crossWindows then
      if nextIndex == tabCount then Position(p.window, 0) else Position(p.window, nextIndex)
    else if nextIndex == tabCount then
      var nextWindow := if p.window + 1 == |tabCounts| then 0 else p.window + 1;
      Position(nextWindow, 0)
    else Position(p.window, nextIndex)
  }

  /** action_Prev_Document: the mirror image, going to the last tab of the
      previous window when crossing windows from a first tab. */
  function PrevDocument(tabCounts: seq<nat>, p: Position, crossWindows: bool): (r: Position)
    requires ValidPosition(tabCounts, p)
    ensures ValidPosition(tabCounts, r)
    ensures !crossWindows || p.tab > 0 ==> r.window == p.window
    ensures crossWindows && p.tab == 0 ==> r.tab + 1 == tabCounts[r.window]
  {
    var tabCount := tabCounts[p.window];
    if !crossWindows then
      if p.tab == 0 then Position(p.window, tabCount - 1) else Position(p.window, p.tab - 1)
    else if p.tab == 0 then
      var prevWindow := if p.window == 0 then |tabCounts| - 1 else p.window - 1;
      Position(prevWindow, tabCounts[prevWindow] - 1)
    else Position(p.window, p.tab - 1)
  }

  /** Moving on goes one tab further modulo the window's tab count, and
      when crossing windows from a last tab one window further modulo their
      number. */
  lemma NextIsCyclic(tabCounts: seq<nat>, p: Position, crossWindows: bool)
    requires ValidPosition(tabCounts, p)
    ensures !crossWindows ==>
      NextDocument(tabCounts, p, crossWindows) == Position(p.window, (p.tab + 1) % tabCounts[p.window])
    ensures crossWindows && p.tab + 1 < tabCounts[p.window] ==>
      NextDocument(tabCounts, p, crossWindows) == Position(p.window, p.tab + 1)
    ensures crossWindows && p.tab + 1 == tabCounts[p.window] ==>
      NextDocument(tabCounts, p, crossWindows) == Position((p.window + 1) % |tabCounts|, 0)
  {
  }

  /** Going back is one tab back modulo the window's tab count, and when
      crossing windows from a first tab one window back modulo their
      number, landing on that window's last tab. */
  lemma PrevIsCyclic(tabCounts: seq<nat>, p: Position, crossWindows: bool)
    requires ValidPosition(tabCounts, p)
    ensures !crossWindows ==>
      PrevDocument(tabCounts, p, crossWindows)
        == Position(p.window, (p.tab + tabCounts[p.window] - 1) % tabCounts[p.window])
    ensures crossWindows && p.tab > 0 ==>
      PrevDocument(tabCounts, p, crossWindows) == Position(p.window, p.tab - 1)
    ensures crossWindows && p.tab == 0 ==>
      var w := (p.window + |tabCounts| - 1) % |tabCounts|;
      PrevDocument(tabCounts, p, crossWindows) == Position(w, tabCounts[w] - 1)
  {
    var c := tabCounts[p.window];
    if !crossWindows {
      if p.tab == 0 {
        ModBelow(c - 1, c);
      } else {
        ModShift(p.tab - 1, c);
      }
    }
    if crossWindows && p.tab == 0 {
      var n := |tabCounts|;
      if p.window == 0 {
        ModBelow(n - 1, n);
      } else {
        ModShift(p.window - 1, n);
      }
    }
  }

  /** A remainder of a value already below the divisor. */
  lemma ModBelow(x: int, c: int)
    requires 0 <= x < c
    ensures x % c == x
  {
  }

  /** One whole divisor more leaves the remainder unchanged. */
  lemma ModShift(y: int, c: int)
    requires 0 <= y < c
    ensures (c + y) % c == y
  {
  }

  /** Previous undoes next, and next undoes previous, in both modes. */
  lemma NextPrevInverse(tabCounts: seq<nat>, p: Position, crossWindows: bool)
    requires ValidPosition(tabCounts, p)
    ensures PrevDocument(tabCounts, NextDocument(tabCounts, p, crossWindows), crossWindows) == p
    ensures NextDocument(tabCounts, PrevDocument(tabCounts, p, crossWindows), crossWindows) == p
  {
    var n := NextDocument(tabCounts, p, crossWindows);
    var q := PrevDocument(tabCounts, p, crossWindows);
    if crossWindows && p.tab + 1 == tabCounts[p.window] {
      assert n.window == (if p.window + 1 == |tabCounts| then 0 else p.window + 1);
    }
    if crossWindows && p.tab == 0 {
      assert q.window == (if p.window == 0 then |tabCounts| - 1 else p.window - 1);
    }
  }

  /** With a single window, crossing windows makes no difference. */
  lemma SingleWindowSameCycle(tabCount: nat, p: Position)
    requires ValidPosition([tabCount], p)
    ensures NextDocument([tabCount], p, true) == NextDocument([tabCount], p, false)
    ensures PrevDocument([tabCount], p, true) == PrevDocument([tabCount], p, false)
  {
  }

  /** Stepping forward `k` times from `p`. */
  function StepsForward(tabCounts: seq<nat>, p: Position, crossWindows: bool, k: nat): (r: Position)
    requires ValidPosition(tabCounts, p)
    ensures ValidPosition(tabCounts, r)
    decreases k
  {
    if k == 0 then p else StepsForward(tabCounts, NextDocument(tabCounts, p, crossWindows), crossWindows, k - 1)
  }

  /** Stepping `a` then `b` times is stepping `a + b` times. */
  lemma {:induction false} StepsAdd(tabCounts: seq<nat>, p: Position, crossWindows: bool, a: nat, b: nat)
    requires ValidPosition(tabCounts, p)
    ensures StepsForward(tabCounts, p, crossWindows, a + b)
      == StepsForward(tabCounts, StepsForward(tabCounts, p, crossWindows, a), crossWindows, b)
    decreases a
  {
    if a > 0 {
      StepsAdd(tabCounts, NextDocument(tabCounts, p, crossWindows), crossWindows, a - 1, b);
    }
  }

  /** Within one window, stepping forward visits the following tabs in
      order. */
  lemma {:induction false} StepsWithinWindow(tabCounts: seq<nat>, p: Position, k: nat)
    requires ValidPosition(tabCounts, p) && p.tab + k < tabCounts[p.window]
    ensures StepsForward(tabCounts, p, false, k) == Position(p.window, p.tab + k)
    decreases k
  {
    if k > 0 {
      StepsWithinWindow(tabCounts, NextDocument(tabCounts, p, false), k - 1);
    }
  }

  /** Without crossing windows, as many steps as the window has tabs come
      back to the starting tab: the cycle visits every tab once. */
  lemma FullCycle(tabCounts: seq<nat>, p: Position)
    requires ValidPosition(tabCounts, p)
    ensures StepsForward(tabCounts, p, false, tabCounts[p.window]) == p
  {
    var c := tabCounts[p.window];
    var toLast := c - 1 - p.tab;
    StepsWithinWindow(tabCounts, p, toLast);
    var last := Position(p.window, c - 1);
    var first := Position(p.window, 0);
    assert StepsForward(tabCounts, last, false, 1) == first;
    StepsAdd(tabCounts, p, false, toLast, 1);
    StepsWithinWindow(tabCounts, first, p.tab);
    StepsAdd(tabCounts, p, false, toLast + 1, p.tab);
  }

  // -----------------------------------------------------------------------
  // Incremental search toggles
  // -----------------------------------------------------------------------

  datatype SearchType =
    | Literal | CaseSense | RegexSearch | LiteralWord | CaseSenseWord | RegexNoCase

  datatype Direction = Forward | Backward

  /** The search type the (case, regex) check boxes stand for, as
      on_editIFind_textChanged decides it. */
  function SearchTypeOf(caseChecked: bool, regexChecked: bool): (st: SearchType)
    ensures st == CaseSense || st == RegexSearch || st == RegexNoCase || st == Literal
    ensures IsRegexType(st) == regexChecked
  {
    if caseChecked then
      if regexChecked then RegexSearch else CaseSense
    else
      if regexChecked then RegexNoCase else Literal
  }

  predicate IsRegexType(st: SearchType) {
    st == RegexSearch || st == RegexNoCase
  }

  /** The state of the search bar that initToggleButtonsiSearch sets: the
      two check boxes and the remembered case sensitivity for literal and
      for regular-expression searches (used when the case button is
      sticky). */
  datatype Toggles = Toggles(regex: bool, caseSense: bool, lastLiteralCase: bool, lastRegexCase: bool)

  /** The remembered case state of the current mode matches the case box. */
  predicate StickyConsistent(t: Toggles) {
    if t.regex then t.lastRegexCase == t.caseSense else t.lastLiteralCase == t.caseSense
  }

  /** What initToggleButtonsiSearch assigns for a type: the two remembered
      case states and the two boxes. */
  function TypeToggles(st: SearchType): (t: Toggles)
    ensures StickyConsistent(t)
    ensures t.regex == IsRegexType(st)
  {
    match st
    case Literal => Toggles(false, false, false, true)
    case CaseSense => Toggles(false, true, true, true)
    case LiteralWord => Toggles(false, false, false, true)
    case CaseSenseWord => Toggles(false, true, true, true)
    case RegexSearch => Toggles(true, true, false, true)
    case RegexNoCase => Toggles(true, false, false, false)
  }

  /** initToggleButtonsiSearch, from the bar's earlier state `prev`. The two
      remembered case states are assigned first; then the regex box and the
      case box are set with their signals connected, so a box that really
      changes runs its toggled slot (on_checkIFindRegex_toggled, then
      on_checkIFindCase_toggled) on the state reached so far. */
  function InitToggles(prev: Toggles, st: SearchType, sticky: bool): (t: Toggles)
    ensures t.regex == IsRegexType(st) && t.caseSense == TypeToggles(st).caseSense
    ensures StickyConsistent(t)
    ensures !sticky ==> t == TypeToggles(st)
    ensures prev.regex == IsRegexType(st) ==> t == TypeToggles(st)
    ensures sticky && prev.regex && !IsRegexType(st) ==>
      t.lastRegexCase == prev.caseSense && t.lastLiteralCase == t.caseSense
    ensures sticky && !prev.regex && IsRegexType(st) ==>
      t.lastLiteralCase == prev.caseSense && t.lastRegexCase == t.caseSense
  {
    var want := TypeToggles(st);
    var memorised := want.(regex := prev.regex, caseSense := prev.caseSense);
    var afterRegex := if memorised.regex != want.regex then RegexToggled(memorised, want.regex, sticky) else memorised;
    if afterRegex.caseSense != want.caseSense then CaseToggled(afterRegex, want.caseSense) else afterRegex
  }

  /** The word searches have no word button on the search bar; they read
      back as their plain counterparts. */
  function WithoutWord(st: SearchType): SearchType {
    match st
    case LiteralWord => Literal
    case CaseSenseWord => CaseSense
    case _ => st
  }

  /** Setting the boxes for a type and reading them back gives the type,
      except that the word types come back without the word, whatever the
      slots did on the way. */
  lemma InitTogglesReadBack(prev: Toggles, st: SearchType, sticky: bool)
    ensures var t := InitToggles(prev, st, sticky); SearchTypeOf(t.caseSense, t.regex) == WithoutWord(st)
    ensures st != LiteralWord && st != CaseSenseWord ==>
      var t := InitToggles(prev, st, sticky); SearchTypeOf(t.caseSense, t.regex) == st
  {
  }

  /** Every box combination is reached from the type it stands for. */
  lemma TogglesReadBack(prev: Toggles, caseChecked: bool, regexChecked: bool, sticky: bool)
    ensures var t := InitToggles(prev, SearchTypeOf(caseChecked, regexChecked), sticky);
      t.caseSense == caseChecked && t.regex == regexChecked
  {
  }

  /** on_checkIFindCase_toggled: the new case state is remembered for the
      current mode. */
  function CaseToggled(t: Toggles, caseChecked: bool): (r: Toggles)
    ensures StickyConsistent(r) && r.regex == t.regex && r.caseSense == caseChecked
  {
    var u := t.(caseSense := caseChecked);
    if u.regex then u.(lastRegexCase := caseChecked) else u.(lastLiteralCase := caseChecked)
  }

  /** on_checkIFindRegex_toggled: when the case button is sticky, the case
      state of the mode being left is remembered and that of the mode being
      entered is restored. */
  function RegexToggled(t: Toggles, regexChecked: bool, sticky: bool): (r: Toggles)
    ensures r.regex == regexChecked
    ensures !sticky ==> r == t.(regex := regexChecked)
    ensures sticky ==> StickyConsistent(r)
  {
    var u := t.(regex := regexChecked);
    if !sticky then u
    else if regexChecked then u.(lastLiteralCase := t.caseSense, caseSense := t.lastRegexCase)
    else u.(lastRegexCase := t.caseSense, caseSense := t.lastLiteralCase)
  }

  /** With a sticky case button, switching to regular expressions and back
      restores the case box as it was. */
  lemma RegexRoundTrip(t: Toggles)
    requires StickyConsistent(t) && !t.regex
    ensures RegexToggled(RegexToggled(t, true, true), false, true) == t
  {
  }

  /** What on_editIFind_textChanged asks of the current document
      (findIncrAP): the text, the direction, the type from the boxes,
      whether searches wrap (the preference), and whether a search is
      already in progress. */
  datatype SearchRequest = SearchRequest(text: string, direction: Direction, searchType: SearchType, wraps: bool, continued: bool)

  /** on_editIFind_textChanged: nothing when a regular expression does not
      yet compile or there is no current document, otherwise a search. */
  function OnSearchTextChanged(text: string, t: Toggles, reverse: bool, compiles: string -> bool, searchStartPos: int,
                               hasDocument: bool, searchWraps: bool)
    : (r: Option<SearchRequest>)
    ensures r.None? <==> (t.regex && !compiles(text)) || !hasDocument
    ensures r.Some? ==>
      && r.value.text == text
      && r.value.searchType == SearchTypeOf(t.caseSense, t.regex)
      && (r.value.direction == Backward <==> reverse)
      && r.value.wraps == searchWraps
      && (r.value.continued <==> searchStartPos != -1)
  {
    var searchType := SearchTypeOf(t.caseSense, t.regex);
    var direction := if reverse then Backward else Forward;
    if IsRegexType(searchType) && !compiles(text) then None
    else if !hasDocument then None
    else Some(SearchRequest(text, direction, searchType, searchWraps, searchStartPos != -1))
  }

  // -----------------------------------------------------------------------
  // Mark labels
  // -----------------------------------------------------------------------

  /** isalpha in the C locale. */
  predicate IsAsciiLetter(c: char) { 'a' <= c <= 'z' || 'A' <= c <= 'Z' }

  /** A label action_Mark and action_Goto_Mark accept: exactly one
      character, and a letter. */
  predicate ValidMarkLabel(mark: string) {
    |mark| == 1 && IsAsciiLetter(mark[0])
  }

  /** What action_Mark and action_Goto_Mark do with a label. */
  datatype MarkOutcome = Beep | NoDocument | Marked(letter: char)

  /** The shared label check of action_Mark and action_Goto_Mark: beep on
      anything but a valid label, otherwise act on the current document. */
  function MarkAction(mark: string, hasDocument: bool): (r: MarkOutcome)
    ensures r == Beep <==> !ValidMarkLabel(mark)
    ensures r.Marked? <==> hasDocument && ValidMarkLabel(mark)
    ensures r.Marked? ==> [r.letter] == mark
  {
    if |mark| != 1 || !IsAsciiLetter(mark[0]) then Beep
    else if hasDocument then Marked(mark[0])
    else NoDocument
  }
}
