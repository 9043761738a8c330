/** The configuration summary as it is printed, and as the settings endpoint
    reads it back. */
module SettingsTable {
  import opened Options

  datatype Setting = Setting(key: string, value: string)

  // --- printing

  const TITLE := "| name | value |"
  const RULE := "| :--- | :---  |"
  const SEPARATOR := " | "

  function Row(s: Setting): string {
    "| " + s.key + SEPARATOR + s.value + " |"
  }

  function Rows(settings: seq<Setting>): string {
    if settings == [] then "" else Row(settings[0]) + "\n" + Rows(settings[1..])
  }

  function Summary(settings: seq<Setting>): string {
    TITLE + "\n" + (RULE + "\n" + Rows(settings))
  }

  // --- reading

  /** Where the first newline is, or the end. */
  function LineEnd(s: string): (k: nat)
    ensures k <= |s| && '\n' !in s[..k] && (k < |s| ==> s[k] == '\n')
  {
    if s == "" || s[0] == '\n' then 0 else 1 + LineEnd(s[1..])
  }

  function WithoutReturn(line: string): string {
    if line != "" && line[|line| - 1] == '\r' then line[..|line| - 1] else line
  }

  function Lines(s: string): seq<string> {
    if s == "" then []
    else
      var k := LineEnd(s);
      if k < |s| then [WithoutReturn(s[..k])] + Lines(s[k + 1..]) else [s]
  }

  /** The text before and after the first separator. */
  function SplitOnce(s: string): Option<Setting> {
    if SEPARATOR <= s then Some(Setting("", s[3..]))
    else if s == "" then None
    else
      match SplitOnce(s[1..])
      case None => None
      case Some(rest) => Some(Setting([s[0]] + rest.key, rest.value))
  }

  function ParseLine(line: string): Option<Setting> {
    if !("| " <= line) then None
    else
      var row := line[2..];
      if |row| < 2 || row[|row| - 2..] != " |" then None else SplitOnce(row[..|row| - 2])
  }

  function ParseLines(lines: seq<string>): seq<Setting> {
    if lines == [] then []
    else
      match ParseLine(lines[0])
      case None => ParseLines(lines[1..])
      case Some(s) => [s] + ParseLines(lines[1..])
  }

  function Parse(summary: string): seq<Setting> {
    var lines := Lines(summary);
    if |lines| <= 2 then [] else ParseLines(lines[2..])
  }

  // --- what is read is what was printed

  ghost predicate OneLine(s: string) {
    '\n' !in s
  }

  predicate HoldsSeparator(s: string) {
    SEPARATOR <= s || (s != "" && HoldsSeparator(s[1..]))
  }

  /** The separator is not to be found in the name, nor begun by its end. */
  predicate Clean(key: string) {
    !HoldsSeparator(key) && !(|key| >= 2 && key[|key| - 2] == ' ' && key[|key| - 1] == '|')
  }

  lemma CleanRest(key: string)
    requires key != ""
    ensures Clean(key) <==> !(SEPARATOR <= key + SEPARATOR) && Clean(key[1..])
  {
    var (alone, rest) := (key + SEPARATOR, key[1..]);
    assert forall i :: 0 <= i < |key| ==> alone[i] == key[i];
    assert alone[|key|] == ' ' && alone[|key| + 1] == '|' && alone[|key| + 2] == ' ';
    if |key| >= 3 {
      assert SEPARATOR <= alone <==> SEPARATOR <= key;
      assert key[|key| - 2] == rest[|rest| - 2] && key[|key| - 1] == rest[|rest| - 1];
    } else {
      assert !HoldsSeparator(key) by { ShortHoldsNone(key); }
      assert !HoldsSeparator(rest) by { ShortHoldsNone(rest); }
    }
  }

  lemma {:induction false} ShortHoldsNone(s: string)
    requires |s| < 3
    ensures !HoldsSeparator(s)
  {
    if s != "" { ShortHoldsNone(s[1..]); }
  }

  lemma {:induction false} CleanSplits(key: string)
    ensures Clean(key) <==> SplitOnce(key + SEPARATOR) == Some(Setting(key, ""))
  {
    var alone := key + SEPARATOR;
    if key == "" {
      assert alone == SEPARATOR && alone[3..] == "";
    } else {
      CleanRest(key);
      CleanSplits(key[1..]);
      assert alone[1..] == key[1..] + SEPARATOR;
      assert [key[0]] + key[1..] == key;
      SplitAlone(key[1..], "");
    }
  }

  lemma {:induction false} LineEndIs(line: string, rest: string)
    requires OneLine(line)
    ensures LineEnd(line + "\n" + rest) == |line|
  {
    if line != "" {
      LineEndIs(line[1..], rest);
      assert (line + "\n" + rest)[1..] == line[1..] + "\n" + rest;
    }
  }

  lemma LinesTakeOne(line: string, rest: string)
    requires OneLine(line) && line != "" && line[|line| - 1] != '\r'
    ensures Lines(line + "\n" + rest) == [line] + Lines(rest)
  {
    LineEndIs(line, rest);
    var s := line + "\n" + rest;
    assert s[..|line|] == line && s[|line| + 1..] == rest;
  }

  ghost predicate Printable(settings: seq<Setting>) {
    forall i :: 0 <= i < |settings| ==> OneLine(settings[i].key) && OneLine(settings[i].value)
  }

  function RowsOf(settings: seq<Setting>): seq<string> {
    if settings == [] then [] else [Row(settings[0])] + RowsOf(settings[1..])
  }

  lemma RowIsALine(s: Setting)
    requires OneLine(s.key) && OneLine(s.value)
    ensures OneLine(Row(s)) && Row(s) != "" && Row(s)[|Row(s)| - 1] == '|'
  {
  }

  lemma {:induction false} LinesOfRows(settings: seq<Setting>)
    requires Printable(settings)
    ensures Lines(Rows(settings)) == RowsOf(settings)
  {
    if settings != [] {
      LinesOfRows(settings[1..]);
      RowIsALine(settings[0]);
      LinesTakeOne(Row(settings[0]), Rows(settings[1..]));
    }
  }

  /** The first separator of a row is where the key would have it alone. */
  lemma {:induction false} SplitAlone(key: string, value: string)
    ensures SplitOnce(key + SEPARATOR).Some?
    ensures SplitOnce(key + SEPARATOR + value) == Some(Setting(SplitOnce(key + SEPARATOR).value.key, SplitOnce(key + SEPARATOR).value.value + value))
  {
    var (alone, row) := (key + SEPARATOR, key + SEPARATOR + value);
    assert row == alone + value;
    assert SEPARATOR <= alone <==> SEPARATOR <= row;
    if SEPARATOR <= alone {
      assert row[3..] == alone[3..] + value;
    } else {
      assert key != "" by { assert key == "" ==> alone == SEPARATOR; }
      assert alone[1..] == key[1..] + SEPARATOR;
      assert row[1..] == key[1..] + SEPARATOR + value;
      SplitAlone(key[1..], value);
    }
  }

  lemma ParsesRow(s: Setting)
    ensures ParseLine(Row(s)).Some?
    ensures ParseLine(Row(s)) == Some(s) <==> Clean(s.key)
  {
    var inner := s.key + SEPARATOR + s.value;
    var row := Row(s)[2..];
    assert row == inner + " |";
    assert row[..|row| - 2] == inner && row[|row| - 2..] == " |";
    SplitAlone(s.key, s.value);
    CleanSplits(s.key);
    var alone := SplitOnce(s.key + SEPARATOR).value;
    SplitLosesNothing(s.key + SEPARATOR);
    assert |alone.key| + |alone.value| == |s.key|;
    assert alone.key == s.key ==> alone.value == "";
    assert "" + s.value == s.value;
    assert ParseLine(Row(s)) == Some(Setting(alone.key, alone.value + s.value));
  }

  lemma {:induction false} SplitLosesNothing(s: string)
    ensures SplitOnce(s).Some? ==> s == SplitOnce(s).value.key + SEPARATOR + SplitOnce(s).value.value
  {
    if !(SEPARATOR <= s) && s != "" {
      SplitLosesNothing(s[1..]);
    } else if SEPARATOR <= s {
      assert s == "" + SEPARATOR + s[3..];
    }
  }

  predicate AllClean(settings: seq<Setting>) {
    settings == [] || (Clean(settings[0].key) && AllClean(settings[1..]))
  }

  lemma {:induction false} ParsesRows(settings: seq<Setting>)
    ensures |ParseLines(RowsOf(settings))| == |settings|
    ensures ParseLines(RowsOf(settings)) == settings <==> AllClean(settings)
  {
    if settings != [] {
      var (first, rest) := (settings[0], settings[1..]);
      ParsesRow(first);
      ParsesRows(rest);
      var rows := RowsOf(settings);
      assert rows[0] == Row(first) && rows[1..] == RowsOf(rest);
      ConsEqual(ParseLine(Row(first)).value, ParseLines(RowsOf(rest)), settings);
    }
  }

  lemma ConsEqual(first: Setting, rest: seq<Setting>, all: seq<Setting>)
    requires all != []
    ensures [first] + rest == all <==> first == all[0] && rest == all[1..]
  {
  }

  /** Reading the printed summary gives back exactly the settings printed, if and
      only if no name holds the separator or ends as if to begin it; the values
      may hold anything but a newline. */
  lemma ReadsBackIff(settings: seq<Setting>)
    requires Printable(settings)
    ensures Parse(Summary(settings)) == settings <==> AllClean(settings)
  {
    LinesOfSummary(settings);
    ParsesRows(settings);
  }

  lemma LinesOfSummary(settings: seq<Setting>)
    requires Printable(settings)
    ensures Lines(Summary(settings)) == [TITLE, RULE] + RowsOf(settings)
    ensures Parse(Summary(settings)) == ParseLines(RowsOf(settings))
  {
    LinesOfHead(Rows(settings));
    LinesOfRows(settings);
    ParseSkipsHead(Summary(settings), RowsOf(settings));
  }

  lemma LinesOfHead(body: string)
    ensures Lines(TITLE + "\n" + (RULE + "\n" + body)) == [TITLE, RULE] + Lines(body)
  {
    LinesTakeOne(TITLE, RULE + "\n" + body);
    LinesTakeOne(RULE, body);
    assert [TITLE] + ([RULE] + Lines(body)) == [TITLE, RULE] + Lines(body);
  }

  lemma ParseSkipsHead(summary: string, rows: seq<string>)
    requires Lines(summary) == [TITLE, RULE] + rows
    ensures Parse(summary) == ParseLines(rows)
  {
    assert ([TITLE, RULE] + rows)[2..] == rows;
  }

  /** A name that holds the separator is cut at it. */
  lemma SeparatorInNameIsCut(value: string)
    requires OneLine(value)
    ensures Parse(Summary([Setting("a | b", value)])) != [Setting("a | b", value)]
  {
    assert "a | b"[1..] == " | b" && SEPARATOR <= " | b";
    assert HoldsSeparator(" | b") && HoldsSeparator("a | b");
    ReadsBackIff([Setting("a | b", value)]);
  }

  lemma {:induction false} NoSpaceIsClean(key: string)
    requires ' ' !in key
    ensures Clean(key)
  {
    assert SEPARATOR[0] == ' ' && (key != "" ==> key[0] in key);
    if key != "" { NoSpaceIsClean(key[1..]); }
  }

  /** A configuration's names are identifiers. */
  lemma IdentifiersReadBack(settings: seq<Setting>)
    requires Printable(settings)
    requires forall i :: 0 <= i < |settings| ==> ' ' !in settings[i].key
    ensures Parse(Summary(settings)) == settings
  {
    NamesAreClean(settings);
    ReadsBackIff(settings);
  }

  lemma {:induction false} NamesAreClean(settings: seq<Setting>)
    requires forall i :: 0 <= i < |settings| ==> ' ' !in settings[i].key
    ensures AllClean(settings)
  {
    if settings != [] {
      NoSpaceIsClean(settings[0].key);
      NamesAreClean(settings[1..]);
    }
  }
}
