/**
 The Linux service definition: a systemd unit written line by line, and the reader that recovers the
 environment from it.
 */
module SystemdUnit {
  import opened Characters
  import opened Entries
  import opened Options
  import opened Sequences
  import opened ServiceEscapes
  import opened Strings

  datatype UnitInput = UnitInput(
    environment: seq<Entry>,
    execStart: seq<string>,
    stderrPath: string,
    stdoutPath: string,
    workingDirectory: string)

  // ----- The printer -----

  function PathValue(value: string): string {
    ReplaceAll(value, "%", "%%")
  }

  function EnvironmentLine(entry: Entry): string {
    "Environment=" + SystemdQuote(entry.0 + "=" + entry.1)
  }

  function EnvironmentLines(entries: seq<Entry>): seq<string> {
    if entries == [] then [] else [EnvironmentLine(entries[0])] + EnvironmentLines(entries[1..])
  }

  function Quoted(values: seq<string>): seq<string> {
    if values == [] then [] else [SystemdQuote(values[0])] + Quoted(values[1..])
  }

  function Opening(input: UnitInput): seq<string> {
    ["[Unit]",
     "Description=OpenTag local agent",
     "After=network.target",
     "",
     "[Service]",
     "Type=simple",
     "WorkingDirectory=" + SystemdQuote(input.workingDirectory)]
  }

  function Closing(input: UnitInput): seq<string> {
    ["ExecStart=" + Join(Quoted(input.execStart), " "),
     "Restart=always",
     "RestartSec=3",
     "StandardOutput=append:" + PathValue(input.stdoutPath),
     "StandardError=append:" + PathValue(input.stderrPath),
     "",
     "[Install]",
     "WantedBy=default.target"]
  }

  function BuildSystemdUserService(input: UnitInput): string {
    Join(Opening(input) + EnvironmentLines(input.environment) + Closing(input) + [""], "\n")
  }

  // ----- The reader -----

  // s.split(/\r?\n/), with the line read so far.
  function SplitLines(current: string, s: string): seq<string>
    decreases |s|
  {
    if s == "" then [current]
    else if s[0] == '\n' then [current] + SplitLines("", s[1..])
    else if "\r\n" <= s then [current] + SplitLines("", s[2..])
    else SplitLines(current + [s[0]], s[1..])
  }

  // (?:\\.|[^"])* matches all of s.
  predicate QuotedText(s: string) {
    || s == ""
    || (|s| >= 2 && s[0] == '\\' && IsDot(s[1]) && QuotedText(s[2..]))
    || (s[0] != '"' && QuotedText(s[1..]))
  }

  const ENVIRONMENT := "Environment="

  // The quoted text of an environment line, or else everything after the equals sign.
  function EnvironmentRaw(line: string): Option<string> {
    if !(ENVIRONMENT <= line) then None
    else
      var rest := line[|ENVIRONMENT|..];
      if |rest| >= 2 && rest[0] == '"' && rest[|rest| - 1] == '"' && QuotedText(rest[1..|rest| - 1])
      then Some(rest[1..|rest| - 1])
      else if rest != "" && forall i :: 0 <= i < |rest| ==> IsDot(rest[i]) then Some(rest)
      else None
  }

  function EntryOf(line: string): Option<Entry> {
    match EnvironmentRaw(line)
    case Some(raw) =>
      var value := UnescapeSystemdQuotedValue(raw);
      var separator := IndexOf(value, "=", 0);
      if raw == "" || separator <= 0 then None else Some((value[..separator], value[separator + 1..]))
    case None => None
  }

  function EntriesOf(lines: seq<string>): seq<Entry> {
    if lines == [] then []
    else (match EntryOf(lines[0]) case Some(entry) => [entry] case None => []) + EntriesOf(lines[1..])
  }

  function ReadEntries(unit: string): seq<Entry> {
    EntriesOf(SplitLines("", unit))
  }

  // A missing file holds no environment.
  function ReadSystemdEnvironment(file: Option<string>): map<string, string> {
    match file
    case Some(unit) => FromEntries(ReadEntries(unit))
    case None => map[]
  }

  // ----- What the reader can return -----

  // A non-empty key without an equals sign, and no line feed anywhere.
  predicate Representable(entry: Entry) {
    entry.0 != "" && '=' !in entry.0 && '\n' !in entry.0 && '\n' !in entry.1
  }

  lemma {:induction false} ReplaceAllKeepsOut(s: string, pattern: string, replacement: string, c: char)
    requires pattern != "" && c !in s && c !in replacement
    ensures c !in ReplaceAll(s, pattern, replacement)
    decreases |s|
  {
    if s != "" {
      if pattern <= s {
        ReplaceAllKeepsOut(s[|pattern|..], pattern, replacement, c);
      } else {
        ReplaceAllKeepsOut(s[1..], pattern, replacement, c);
      }
    }
  }

  lemma UnescapeKeepsLine(value: string)
    requires '\n' !in value
    ensures '\n' !in UnescapeSystemdQuotedValue(value)
  {
    var v1 := ReplaceAll(value, "%%", "%");
    var v2 := ReplaceAll(v1, "\\\"", "\"");
    var v3 := ReplaceAll(v2, "\\$", "$");
    ReplaceAllKeepsOut(value, "%%", "%", '\n');
    ReplaceAllKeepsOut(v1, "\\\"", "\"", '\n');
    ReplaceAllKeepsOut(v2, "\\$", "$", '\n');
    ReplaceAllKeepsOut(v3, "\\\\", "\\", '\n');
  }

  lemma EscapeKeepsLine(value: string)
    requires '\n' !in value
    ensures '\n' !in SystemdQuote(value)
  {
    var v1 := ReplaceAll(value, "\\", "\\\\");
    var v2 := ReplaceAll(v1, "\"", "\\\"");
    var v3 := ReplaceAll(v2, "$", "\\$");
    ReplaceAllKeepsOut(value, "\\", "\\\\", '\n');
    ReplaceAllKeepsOut(v1, "\"", "\\\"", '\n');
    ReplaceAllKeepsOut(v2, "$", "\\$", '\n');
    ReplaceAllKeepsOut(v3, "%", "%%", '\n');
  }

  lemma FirstEquals(value: string)
    ensures var r := IndexOf(value, "=", 0);
            r >= 0 ==> r < |value| && value[r] == '=' && '=' !in value[..r]
  {
    var r := IndexOf(value, "=", 0);
    if r >= 0 {
      assert value[r..r + 1][0] == value[r];
      forall i | 0 <= i < r ensures value[i] != '=' {
        assert !OccursAt(value, "=", i);
        assert value[i..i + 1] == [value[i]];
      }
    }
  }

  lemma EntryOfRepresentable(line: string)
    requires '\n' !in line && EntryOf(line).Some?
    ensures Representable(EntryOf(line).value)
  {
    var raw := EnvironmentRaw(line).value;
    assert '\n' !in raw;
    UnescapeKeepsLine(raw);
    FirstEquals(UnescapeSystemdQuotedValue(raw));
  }

  lemma {:induction false} SplitHasNoLineFeed(current: string, s: string)
    requires '\n' !in current
    ensures forall i :: 0 <= i < |SplitLines(current, s)| ==> '\n' !in SplitLines(current, s)[i]
    decreases |s|
  {
    if s != "" {
      if s[0] == '\n' {
        SplitHasNoLineFeed("", s[1..]);
      } else if "\r\n" <= s {
        SplitHasNoLineFeed("", s[2..]);
      } else {
        SplitHasNoLineFeed(current + [s[0]], s[1..]);
      }
    }
  }

  lemma {:induction false} EntriesOfRepresentable(lines: seq<string>)
    requires forall i :: 0 <= i < |lines| ==> '\n' !in lines[i]
    ensures forall e :: e in EntriesOf(lines) ==> Representable(e)
  {
    if lines != [] {
      hide Representable;
      EntriesOfRepresentable(lines[1..]);
      if EntryOf(lines[0]).Some? { EntryOfRepresentable(lines[0]); }
    }
  }

  // ----- Reading one environment line back -----

  lemma {:induction false} EncodedIsQuotedText(s: string)
    ensures QuotedText(UnitEncode(UNIT_SPECIALS, s))
  {
    if s != "" {
      var rest := UnitEncode(UNIT_SPECIALS, s[1..]);
      EncodedIsQuotedText(s[1..]);
      var text := UnitChar(UNIT_SPECIALS, s[0]) + rest;
      if s[0] in UNIT_SPECIALS {
        assert text[2..] == rest;
        assert text[0] == UnitCode(s[0])[0] && text[1] == UnitCode(s[0])[1];
        if s[0] == '%' {
          assert text[1..] == ['%'] + rest;
          assert (['%'] + rest)[1..] == rest;
        }
      } else {
        assert text[1..] == rest && text[0] == s[0];
      }
    }
  }

  lemma EnvironmentRawReadsBack(value: string)
    ensures EnvironmentRaw(ENVIRONMENT + SystemdQuote(value)) == Some(EscapeSystemd(value))
  {
    hide EscapeSystemd, QuotedText;
    var inner := EscapeSystemd(value);
    var line := ENVIRONMENT + SystemdQuote(value);
    EscapeSystemdEncodes(value);
    EncodedIsQuotedText(value);
    assert line[|ENVIRONMENT|..] == "\"" + inner + "\"";
    assert ("\"" + inner + "\"")[1..|inner| + 1] == inner;
  }

  lemma EqualsAfterKey(key: string, value: string)
    requires '=' !in key
    ensures IndexOf(key + "=" + value, "=", 0) == |key|
  {
    var text := key + "=" + value;
    assert text[|key|..|key| + 1] == "=";
    forall j | 0 <= j < |key| ensures !OccursAt(text, "=", j) {
      assert text[j] == key[j];
      if OccursAt(text, "=", j) { OccurrenceChar(text, "=", j, 0); }
    }
    IndexOfUnique(text, "=", 0, |key|);
  }

  lemma EntryReadsBack(entry: Entry)
    requires Representable(entry)
    ensures EntryOf(EnvironmentLine(entry)) == Some(entry)
  {
    hide EnvironmentRaw, EscapeSystemd, UnescapeSystemdQuotedValue, IndexOf;
    var value := entry.0 + "=" + entry.1;
    EnvironmentRawReadsBack(value);
    UnescapeSystemdInverts(value);
    EscapedIsNotEmpty(value);
    EqualsAfterKey(entry.0, entry.1);
    assert value[..|entry.0|] == entry.0 && value[|entry.0| + 1..] == entry.1;
  }

  lemma EscapedIsNotEmpty(value: string)
    requires value != ""
    ensures EscapeSystemd(value) != ""
  {
    EscapeSystemdEncodes(value);
  }

  // ----- Splitting the file -----

  // The line separator takes a carriage return in front of it along.
  function Chomp(line: string): string {
    if line != "" && line[|line| - 1] == '\r' then line[..|line| - 1] else line
  }

  ghost predicate ReadsAsWritten(line: string) {
    '\n' !in line && EntryOf(Chomp(line)) == EntryOf(line)
  }

  lemma {:induction false} SplitFirstLine(current: string, line: string, rest: string)
    requires '\n' !in line
    ensures SplitLines(current, (line + "\n") + rest) == [current + Chomp(line)] + SplitLines("", rest)
    decreases |line|
  {
    var s := (line + "\n") + rest;
    if line == "" {
      assert s[1..] == rest && current + "" == current;
    } else {
      assert s[1..] == (line[1..] + "\n") + rest && s[1] == (line[1..] + "\n")[0];
      if line == "\r" {
        assert s[2..] == rest && s[..2] == "\r\n" && current + Chomp(line) == current;
      } else {
        SplitFirstLine(current + [s[0]], line[1..], rest);
        ChompTail(line);
        assert current + [line[0]] + Chomp(line[1..]) == current + Chomp(line);
      }
    }
  }

  lemma ChompTail(line: string)
    requires line != "" && line != "\r"
    ensures Chomp(line) == [line[0]] + Chomp(line[1..])
  {}

  lemma {:induction false} SplitReads(lines: seq<string>)
    requires forall i :: 0 <= i < |lines| ==> ReadsAsWritten(lines[i])
    ensures EntriesOf(SplitLines("", Lines(lines))) == EntriesOf(lines)
  {
    if lines != [] {
      hide EntryOf, Chomp;
      assert ReadsAsWritten(lines[0]);
      SplitFirstLine("", lines[0], Lines(lines[1..]));
      assert "" + Chomp(lines[0]) == Chomp(lines[0]);
      var rest := SplitLines("", Lines(lines[1..]));
      assert ([Chomp(lines[0])] + rest)[1..] == rest;
      SplitReads(lines[1..]);
    }
  }

  lemma {:induction false} EntriesAppend(a: seq<string>, b: seq<string>)
    ensures EntriesOf(a + b) == EntriesOf(a) + EntriesOf(b)
  {
    hide EntryOf;
    if a == [] {
      assert a + b == b;
    } else {
      var head := match EntryOf(a[0]) case Some(entry) => [entry] case None => [];
      EntriesAppend(a[1..], b);
      assert (a + b)[0] == a[0] && (a + b)[1..] == a[1..] + b;
      Regroup(head, EntriesOf(a[1..]), EntriesOf(b));
    }
  }

  // ----- The whole file -----

  predicate OneLine(s: string) {
    '\n' !in s
  }

  // A line that cannot start like an environment line.
  predicate StartsOtherwise(line: string) {
    line == "" || line[0] != 'E' || (|line| > 1 && line[1] != 'n')
  }

  lemma OtherLine(line: string)
    requires OneLine(line) && StartsOtherwise(line)
    ensures ReadsAsWritten(line) && EntryOf(line) == None
  {
    assert ENVIRONMENT[0] == 'E' && ENVIRONMENT[1] == 'n';
    assert !(ENVIRONMENT <= line);
  }

  lemma EnvironmentLineReads(entry: Entry)
    requires Representable(entry)
    ensures ReadsAsWritten(EnvironmentLine(entry)) && EntryOf(EnvironmentLine(entry)) == Some(entry)
  {
    hide EscapeSystemd, EntryOf;
    EntryReadsBack(entry);
    EscapeKeepsLine(entry.0 + "=" + entry.1);
    var line := EnvironmentLine(entry);
    assert line[|line| - 1] == '"';
  }

  lemma OneEntry(line: string)
    ensures EntriesOf([line]) == match EntryOf(line) case Some(entry) => [entry] case None => []
  {}

  lemma {:induction false} EnvironmentLinesRead(entries: seq<Entry>)
    requires forall e :: e in entries ==> Representable(e)
    ensures forall i :: 0 <= i < |EnvironmentLines(entries)| ==> ReadsAsWritten(EnvironmentLines(entries)[i])
    ensures EntriesOf(EnvironmentLines(entries)) == entries
  {
    if entries != [] {
      hide ReadsAsWritten, EntryOf, EnvironmentLine, Representable, EntriesOf;
      EnvironmentLineReads(entries[0]);
      EnvironmentLinesRead(entries[1..]);
      EntriesAppend([EnvironmentLine(entries[0])], EnvironmentLines(entries[1..]));
      OneEntry(EnvironmentLine(entries[0]));
      Uncons(entries);
    }
  }

  predicate OtherTextOnOneLine(input: UnitInput) {
    && OneLine(input.workingDirectory) && OneLine(input.stdoutPath) && OneLine(input.stderrPath)
    && forall i :: 0 <= i < |input.execStart| ==> OneLine(input.execStart[i])
  }

  lemma {:induction false} CommandOnOneLine(values: seq<string>)
    requires forall i :: 0 <= i < |values| ==> OneLine(values[i])
    ensures OneLine(Join(Quoted(values), " "))
  {
    if values != [] {
      hide SystemdQuote;
      assert OneLine(values[0]);
      EscapeKeepsLine(values[0]);
      CommandOnOneLine(values[1..]);
      assert Quoted(values)[1..] == Quoted(values[1..]);
    }
  }

  lemma {:induction false} OtherLines(lines: seq<string>)
    requires forall i :: 0 <= i < |lines| ==> OneLine(lines[i]) && StartsOtherwise(lines[i])
    ensures forall i :: 0 <= i < |lines| ==> ReadsAsWritten(lines[i])
    ensures EntriesOf(lines) == []
  {
    if lines != [] {
      hide EntryOf, ReadsAsWritten;
      OtherLine(lines[0]);
      OtherLines(lines[1..]);
      Uncons(lines);
    }
  }

  lemma OpeningReads(input: UnitInput)
    requires OtherTextOnOneLine(input)
    ensures forall i :: 0 <= i < |Opening(input)| ==> ReadsAsWritten(Opening(input)[i])
    ensures EntriesOf(Opening(input)) == []
  {
    hide SystemdQuote, ReadsAsWritten, EntriesOf;
    EscapeKeepsLine(input.workingDirectory);
    OtherLines(Opening(input));
  }

  lemma ClosingReads(input: UnitInput)
    requires OtherTextOnOneLine(input)
    ensures forall i :: 0 <= i < |Closing(input)| ==> ReadsAsWritten(Closing(input)[i])
    ensures EntriesOf(Closing(input)) == []
  {
    hide SystemdQuote, ReadsAsWritten, EntriesOf, ReplaceAll, Join;
    CommandOnOneLine(input.execStart);
    ReplaceAllKeepsOut(input.stdoutPath, "%", "%%", '\n');
    ReplaceAllKeepsOut(input.stderrPath, "%", "%%", '\n');
    OtherLines(Closing(input));
  }

  lemma RepresentableReadsBack(input: UnitInput)
    requires OtherTextOnOneLine(input) && forall e :: e in input.environment ==> Representable(e)
    ensures ReadEntries(BuildSystemdUserService(input)) == input.environment
  {
    hide Opening, Closing, EnvironmentLines, ReadsAsWritten, EntriesOf, SplitLines, Lines, Representable;
    var before, env, after := Opening(input), EnvironmentLines(input.environment), Closing(input);
    OpeningReads(input);
    EnvironmentLinesRead(input.environment);
    ClosingReads(input);
    JoinEndingEmpty(before + env + after);
    SplitReads(before + env + after);
    EntriesAppend(before + env, after);
    EntriesAppend(before, env);
  }

  /**
   The environment is read back unchanged exactly when every key is non-empty and free of equals signs
   and no key or value holds a line feed, provided that the other text of the unit is on single lines.
   */
  lemma ReadsBackExactlyRepresentable(input: UnitInput)
    requires OtherTextOnOneLine(input)
    ensures ReadEntries(BuildSystemdUserService(input)) == input.environment
       <==> forall e :: e in input.environment ==> Representable(e)
  {
    hide OtherTextOnOneLine, Representable, BuildSystemdUserService, EntriesOf, SplitLines;
    var unit := BuildSystemdUserService(input);
    SplitHasNoLineFeed("", unit);
    EntriesOfRepresentable(SplitLines("", unit));
    if forall e :: e in input.environment ==> Representable(e) {
      RepresentableReadsBack(input);
    }
  }

  /** So a representable environment is read back. */
  lemma EnvironmentMapReadsBack(input: UnitInput, environment: map<string, string>)
    requires OtherTextOnOneLine(input) && Lists(input.environment, environment)
    requires forall k :: k in environment ==> Representable((k, environment[k]))
    ensures ReadSystemdEnvironment(Some(BuildSystemdUserService(input))) == environment
  {
    RepresentableReadsBack(input);
    FromEntriesInverts(input.environment, environment);
  }
}
