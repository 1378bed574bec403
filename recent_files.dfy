/** The "Open Previous" list of recently opened files, and the history
    file in which it is kept between sessions (source/MainWindow.cpp). */
module RecentFiles {
  import opened Strings

  /** neditDBBadFilenameChars: a name holding it is never stored. */
  const BadFilenameChar: char := '\n'

  /** The comment line WriteNEditDB puts at the top of the history file
      (written in pieces so that the verifier can see its characters). */
  const FileHeader: string := "# File name " + "database " + "for NEdit " + "Open " + "Previous " + "command"

  /** A line the history file keeps: not blank, not a `#` comment, and
      free of the bad character. */
  predicate Storable(line: string) {
    line != [] && !StartsWith(line, '#') && BadFilenameChar !in line
  }

  /** The storable names, in their original order. */
  function Storables(names: seq<string>): (r: seq<string>)
    ensures |r| <= |names|
    ensures forall k :: 0 <= k < |r| ==> Storable(r[k])
  {
    if names == [] then []
    else (if Storable(names[0]) then [names[0]] else []) + Storables(names[1..])
  }

  /** At most the first `n` elements. */
  function Take(s: seq<string>, n: int): (r: seq<string>)
    ensures r <= s
    ensures |r| == if n <= 0 then 0 else if |s| <= n then |s| else n
  {
    if n <= 0 then [] else if |s| <= n then s else s[..n]
  }

  /** What reading history lines keeps: the storable ones, in file order,
      stopping once `max` have been kept. */
  function HistoryEntries(lines: seq<string>, max: int): (r: seq<string>)
    ensures max >= 1 ==> |r| <= max
    ensures forall k :: 0 <= k < |r| ==> Storable(r[k])
  {
    Take(Storables(lines), max)
  }

  lemma {:induction false} StorablesAppend(a: seq<string>, b: seq<string>)
    ensures Storables(a + b) == Storables(a) + Storables(b)
    decreases |a|
  {
    if a == [] {
      assert a + b == b;
    } else {
      assert (a + b)[0] == a[0];
      assert (a + b)[1..] == a[1..] + b;
      StorablesAppend(a[1..], b);
    }
  }

  /** Every kept name comes from the input. */
  lemma {:induction false} StorablesMembers(names: seq<string>)
    ensures forall x :: x in Storables(names) <==> x in names && Storable(x)
    decreases |names|
  {
    if names != [] {
      StorablesMembers(names[1..]);
      assert names == [names[0]] + names[1..];
    }
  }

  /** One more line: kept when storable. */
  lemma StorablesSnoc(lines: seq<string>, k: nat)
    requires k < |lines|
    ensures Storables(lines[..k + 1]) ==
      Storables(lines[..k]) + (if Storable(lines[k]) then [lines[k]] else [])
  {
    assert lines[..k + 1] == lines[..k] + [lines[k]];
    StorablesAppend(lines[..k], [lines[k]]);
  }

  /** Once the lines read so far have given `max` names, the rest of the
      file cannot change the result. */
  lemma StorablesPrefixFull(lines: seq<string>, k: nat, max: int)
    requires k <= |lines| && |Storables(lines[..k])| == max
    ensures Take(Storables(lines), max) == Storables(lines[..k])
  {
    assert lines == lines[..k] + lines[k..];
    StorablesAppend(lines[..k], lines[k..]);
  }

  lemma {:induction false} StorablesOfStorable(names: seq<string>)
    requires forall k :: 0 <= k < |names| ==> Storable(names[k])
    ensures Storables(names) == names
    decreases |names|
  {
    if names != [] {
      StorablesOfStorable(names[1..]);
    }
  }

  // -----------------------------------------------------------------------
  // Lines of the history file, as QTextStream::readLine delivers them
  // -----------------------------------------------------------------------

  /** Position of the first newline, or the length when there is none. */
  function LineEnd(text: string): (k: nat)
    ensures k <= |text| && BadFilenameChar !in text[..k]
    ensures k < |text| ==> text[k] == '\n'
  {
    if text == [] || text[0] == '\n' then 0
    else
      var k := 1 + LineEnd(text[1..]);
      assert text[..k] == [text[0]] + text[1..][..k - 1];
      k
  }

  predicate EndsWithCR(s: string) { |s| > 0 && s[|s| - 1] == '\r' }

  /** readLine drops the end-of-line mark, "\n" or "\r\n". */
  function StripCR(s: string): string {
    if EndsWithCR(s) then s[..|s| - 1] else s
  }

  /** The lines readLine returns until the stream is at its end. */
  function ReadLines(text: string): seq<string>
    decreases |text|
  {
    if text == [] then []
    else
      var k := LineEnd(text);
      [StripCR(text[..k])] + (if k < |text| then ReadLines(text[k + 1..]) else [])
  }

  /** Each name followed by a newline. */
  function LinesText(names: seq<string>): string {
    if names == [] then "" else names[0] + "\n" + LinesText(names[1..])
  }

  /** The whole history file written for a list: the header, then the
      storable names. */
  function HistoryText(list: seq<string>): string {
    FileHeader + "\n" + LinesText(Storables(list))
  }

  lemma {:induction false} LinesTextAppend(a: seq<string>, b: seq<string>)
    ensures LinesText(a + b) == LinesText(a) + LinesText(b)
    decreases |a|
  {
    if a == [] {
      assert a + b == b;
    } else {
      assert (a + b)[0] == a[0];
      assert (a + b)[1..] == a[1..] + b;
      LinesTextAppend(a[1..], b);
    }
  }

  /** Writing one more name after the text for `kept` gives the text for
      `kept` with that name appended. */
  lemma WriteLineStep(header: string, kept: seq<string>, line: string)
    ensures header + LinesText(kept) + line + "\n" == header + LinesText(kept + [line])
  {
    LinesTextAppend(kept, [line]);
    assert LinesText([line]) == line + "\n" + LinesText([]);
  }

  /** A line without a newline, followed by one, reads back as itself
      (less a trailing carriage return). */
  lemma ReadLinesCons(line: string, rest: string)
    requires BadFilenameChar !in line
    ensures ReadLines(line + "\n" + rest) == [StripCR(line)] + ReadLines(rest)
  {
    var text := line + "\n" + rest;
    LineEndAfter(line, rest);
    var k := LineEnd(text);
    assert text[..k] == line;
    assert text[k + 1..] == rest;
  }

  lemma {:induction false} LineEndAfter(line: string, rest: string)
    requires BadFilenameChar !in line
    ensures LineEnd(line + "\n" + rest) == |line|
    decreases |line|
  {
    if line != [] {
      assert (line + "\n" + rest)[0] == line[0];
      assert (line + "\n" + rest)[1..] == line[1..] + "\n" + rest;
      LineEndAfter(line[1..], rest);
    }
  }

  /** The header is a comment line that reads back as one. */
  lemma HeaderIsComment()
    ensures BadFilenameChar !in FileHeader && !Storable(FileHeader)
  {
  }

  /** Written lines read back unchanged, provided none ends in a carriage
      return (readLine would take it for part of the line end). */
  lemma {:induction false} ReadLinesText(names: seq<string>)
    requires forall k :: 0 <= k < |names| ==> BadFilenameChar !in names[k] && !EndsWithCR(names[k])
    ensures ReadLines(LinesText(names)) == names
    decreases |names|
  {
    if names != [] {
      ReadLinesCons(names[0], LinesText(names[1..]));
      ReadLinesText(names[1..]);
    }
  }

  /** The written file reads back line by line as the header followed by
      the storable names. */
  lemma ReadHistory(list: seq<string>)
    requires forall x :: x in list && Storable(x) ==> !EndsWithCR(x)
    ensures ReadLines(HistoryText(list)) == [FileHeader] + Storables(list)
  {
    var kept := Storables(list);
    StorablesMembers(list);
    assert forall k :: 0 <= k < |kept| ==> kept[k] in list;
    HeaderIsComment();
    ReadLinesCons(FileHeader, LinesText(kept));
    ReadLinesText(kept);
  }

  /** Writing the list and reading the file back yields the storable names
      in order, cut to `max`. */
  lemma WriteThenRead(list: seq<string>, max: int)
    requires forall x :: x in list && Storable(x) ==> !EndsWithCR(x)
    ensures HistoryEntries(ReadLines(HistoryText(list)), max) == Take(Storables(list), max)
  {
    var kept := Storables(list);
    ReadHistory(list);
    StorablesAppend([FileHeader], kept);
    HeaderIsComment();
    assert Storables([FileHeader]) == [];
    StorablesOfStorable(kept);
  }

  /** A name ending in a carriage return is written but comes back without
      it: the round trip above needs its precondition. */
  lemma CarriageReturnDropped()
    ensures Storables(["a\r"]) == ["a\r"]
    ensures HistoryEntries(ReadLines(HistoryText(["a\r"])), 10) == ["a"]
  {
    var name: string := "a\r";
    var list := [name];
    assert Storable(name) && EndsWithCR(name);
    StorablesOfStorable(list);
    HeaderIsComment();
    var body := LinesText(list);
    assert body == name + "\n" + LinesText([]);
    ReadLinesCons(FileHeader, body);
    ReadLinesCons(name, "");
    assert StripCR(name) == "a";
    var lines := ReadLines(HistoryText(list));
    assert lines == [FileHeader] + ["a"];
    StorablesAppend([FileHeader], ["a"]);
    assert Storables([FileHeader]) == [];
    StorablesOfStorable(["a"]);
  }

  // -----------------------------------------------------------------------
  // Adding a name to the list
  // -----------------------------------------------------------------------

  /** QList::indexOf: the first position holding `name`, or -1. */
  function IndexOfName(list: seq<string>, name: string): (i: int)
    ensures -1 <= i < |list|
    ensures i == -1 <==> name !in list
    ensures i != -1 ==> list[i] == name && name !in list[..i]
    ensures forall k :: 0 <= k < i ==> list[k] != name
  {
    if list == [] then -1
    else if list[0] == name then 0
    else
      var j := IndexOfName(list[1..], name);
      if j == -1 then -1
      else
        assert list[..j + 1] == [list[0]] + list[1..][..j];
        j + 1
  }

  /** The list after AddToPrevOpenMenu has put `name` at its front. */
  function AddedToPrevOpen(list: seq<string>, name: string, max: int): (r: seq<string>)
    requires max >= 1
    ensures |r| >= 1 && r[0] == name
    ensures name in list ==> |r| == |list| && multiset(r) == multiset(list)
    ensures name !in list ==> r[1..] <= list
    ensures name !in list ==> |r| == if |list| >= max then |list| else |list| + 1
    ensures |list| <= max ==> |r| <= max
    ensures forall x :: x in r ==> x == name || x in list
  {
    var i := IndexOfName(list, name);
    if i != -1 then
      assert list == list[..i] + [list[i]] + list[i + 1..];
      [name] + list[..i] + list[i + 1..]
    else if |list| >= max then [name] + list[..|list| - 1]
    else [name] + list
  }

  /** Moving a present name to the front keeps every other entry in its
      relative order: those before it shift down one place, those after it
      stay where they were. */
  lemma MoveToFrontKeepsOrder(list: seq<string>, name: string, max: int, i: nat)
    requires max >= 1 && i < |list| && list[i] == name && name !in list[..i]
    ensures var r := AddedToPrevOpen(list, name, max);
      && (forall k :: 0 <= k < i ==> r[k + 1] == list[k])
      && (forall k :: i < k < |list| ==> r[k] == list[k])
  {
    assert forall k :: 0 <= k < i ==> list[k] != name by {
      forall k | 0 <= k < i ensures list[k] != name {
        assert list[..i][k] == list[k];
      }
    }
    assert IndexOfName(list, name) == i;
    var r := AddedToPrevOpen(list, name, max);
    assert r == [name] + list[..i] + list[i + 1..];
    forall k | 0 <= k < i ensures r[k + 1] == list[k] {
      assert r[k + 1] == list[..i][k];
    }
    forall k | i < k < |list| ensures r[k] == list[k] {
      assert r[k] == list[i + 1..][k - i - 1];
    }
  }

  /** The list read from a history file, or the list kept so far when the
      file is unchanged since it was last read (or cannot be opened). */
  function Refreshed(list: seq<string>, changedFile: Option<string>, max: int): seq<string> {
    if max < 1 || changedFile.None? then list
    else HistoryEntries(ReadLines(changedFile.value), max)
  }

  /** The process-wide PrevOpen list. The maximum list length (a
      preference) and the history file's text are passed in; `changedFile`
      is None when the file has not been modified since it was last read
      or cannot be opened. */
  class PrevOpenHistory {
    var prevOpen: seq<string>

    constructor ()
      ensures prevOpen == []
    {
      prevOpen := [];
    }

    /** ReadNEditDB: reload the list from the history file, keeping the
        storable lines in file order and stopping at the maximum. */
    method ReadNEditDB(maxPrevOpen: int, changedFile: Option<string>)
      modifies this
      ensures prevOpen == Refreshed(old(prevOpen), changedFile, maxPrevOpen)
    {
      if maxPrevOpen < 1 || changedFile.None? {
        return;
      }
      prevOpen := [];
      var lines := ReadLines(changedFile.value);
      var k := 0;
      while k < |lines|
        invariant 0 <= k <= |lines|
        invariant prevOpen == Storables(lines[..k])
        invariant |prevOpen| < maxPrevOpen
      {
        var line := lines[k];
        StorablesSnoc(lines, k);
        k := k + 1;
        if line != [] && !StartsWith(line, '#') && BadFilenameChar !in line {
          prevOpen := prevOpen + [line];
          if |prevOpen| >= maxPrevOpen {
            StorablesPrefixFull(lines, k, maxPrevOpen);
            return;
          }
        }
      }
      assert lines[..k] == lines;
    }

    /** WriteNEditDB: the text written to the history file, or None when
        the Open Previous list is disabled. */
    method WriteNEditDB(maxPrevOpen: int) returns (file: Option<string>)
      ensures maxPrevOpen < 1 ==> file == None
      ensures maxPrevOpen >= 1 ==> file == Some(HistoryText(prevOpen))
    {
      if maxPrevOpen < 1 {
        return None;
      }
      var header := FileHeader + "\n";
      var text := header;
      ghost var kept: seq<string> := [];
      for k := 0 to |prevOpen|
        invariant kept == Storables(prevOpen[..k])
        invariant text == header + LinesText(kept)
      {
        var line := prevOpen[k];
        StorablesSnoc(prevOpen, k);
        if line != [] && !StartsWith(line, '#') && BadFilenameChar !in line {
          WriteLineStep(header, kept, line);
          text := text + line + "\n";
          kept := kept + [line];
        }
      }
      assert prevOpen[..|prevOpen|] == prevOpen;
      file := Some(text);
    }

    /** AddToPrevOpenMenu: refresh the list from the history file, move or
        push `filename` to the front, and write the file again. Nothing
        happens when the list is disabled (maximum below one). */
    method AddToPrevOpenMenu(filename: string, maxPrevOpen: int, changedFile: Option<string>)
      returns (written: Option<string>)
      modifies this
      ensures maxPrevOpen < 1 ==> prevOpen == old(prevOpen) && written == None
      ensures maxPrevOpen >= 1 ==>
        prevOpen == AddedToPrevOpen(Refreshed(old(prevOpen), changedFile, maxPrevOpen), filename, maxPrevOpen)
      ensures maxPrevOpen >= 1 ==> written == Some(HistoryText(prevOpen))
    {
      if maxPrevOpen < 1 {
        return None;
      }
      ReadNEditDB(maxPrevOpen, changedFile);
      var index := IndexOfName(prevOpen, filename);
      if index != -1 {
        prevOpen := [filename] + prevOpen[..index] + prevOpen[index + 1..];
        written := WriteNEditDB(maxPrevOpen);
        return;
      }
      if |prevOpen| >= maxPrevOpen {
        prevOpen := prevOpen[..|prevOpen| - 1];
      }
      prevOpen := [filename] + prevOpen;
      written := WriteNEditDB(maxPrevOpen);
    }
  }

  /** A list of storable names within the maximum survives the session:
      after adding a storable name, the file AddToPrevOpenMenu writes
      reads back as exactly the new list. */
  lemma AddThenReadBack(list: seq<string>, name: string, max: int)
    requires max >= 1 && |list| <= max
    requires forall k :: 0 <= k < |list| ==> Storable(list[k]) && !EndsWithCR(list[k])
    requires Storable(name) && !EndsWithCR(name)
    ensures var added := AddedToPrevOpen(list, name, max);
      HistoryEntries(ReadLines(HistoryText(added)), max) == added
  {
    var added := AddedToPrevOpen(list, name, max);
    assert forall k :: 0 <= k < |added| ==> Storable(added[k]) && !EndsWithCR(added[k]) by {
      forall k | 0 <= k < |added| ensures Storable(added[k]) && !EndsWithCR(added[k]) {
        assert added[k] in added;
      }
    }
    StorablesOfStorable(added);
    StorablesMembers(added);
    WriteThenRead(added, max);
  }
}
