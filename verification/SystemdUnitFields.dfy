/**
 The lines of a systemd unit beside its environment, read as systemd would: each setting holds its own value.
 */
module SystemdUnitFields {
  import Entries
  import opened Options
  import opened Sequences
  import opened ServiceEscapes
  import opened Strings
  import opened SystemdUnit

  // ----- A reader of the settings -----

  function LinesOf(current: string, s: string): seq<string>
    decreases |s|
  {
    if s == "" then [current]
    else if s[0] == '\n' then [current] + LinesOf("", s[1..])
    else LinesOf(current + [s[0]], s[1..])
  }

  // What the first line with this start goes on with.
  function Setting(lines: seq<string>, start: string): Option<string> {
    if lines == [] then None
    else if start <= lines[0] then Some(lines[0][|start|..])
    else Setting(lines[1..], start)
  }

  datatype Quotation = Quotation(inner: string, after: string)

  // Up to the closing quote; a backslash protects the next character.
  function CloseQuote(s: string): Option<Quotation> {
    if s == "" then None
    else if s[0] == '"' then Some(Quotation("", s[1..]))
    else if s[0] == '\\' && |s| > 1 then Before(s[..2], CloseQuote(s[2..]))
    else Before(s[..1], CloseQuote(s[1..]))
  }

  function Before(text: string, rest: Option<Quotation>): Option<Quotation> {
    match rest
    case Some(q) => Some(Quotation(text + q.inner, q.after))
    case None => None
  }

  lemma {:induction false} CloseQuoteShrinks(s: string)
    ensures CloseQuote(s).Some? ==> |CloseQuote(s).value.after| < |s|
  {
    if s != "" && s[0] != '"' {
      if s[0] == '\\' && |s| > 1 { CloseQuoteShrinks(s[2..]); } else { CloseQuoteShrinks(s[1..]); }
    }
  }

  // Quoted words with a space between them.
  function WordsIn(s: string): seq<string>
    decreases |s|
  {
    if s == "" || s[0] != '"' then []
    else
      match CloseQuote(s[1..])
      case None => []
      case Some(q) =>
        CloseQuoteShrinks(s[1..]);
        [UnescapeSystemdQuotedValue(q.inner)] + if q.after != "" && q.after[0] == ' ' then WordsIn(q.after[1..]) else []
  }

  function PathIn(text: string): string {
    ReplaceAll(text, "%%", "%")
  }

  // ----- Reading quoted words back -----

  lemma {:induction false} ClosesAfterEncoded(s: string, rest: string)
    ensures CloseQuote(UnitEncode(UNIT_SPECIALS, s) + ("\"" + rest))
         == Some(Quotation(UnitEncode(UNIT_SPECIALS, s), rest))
  {
    if s == "" {
      assert "" + ("\"" + rest) == "\"" + rest && ("\"" + rest)[1..] == rest;
    } else {
      var more := UnitEncode(UNIT_SPECIALS, s[1..]);
      ClosesAfterEncoded(s[1..], rest);
      Regroup(UnitChar(UNIT_SPECIALS, s[0]), more, "\"" + rest);
      CloseSkips(s[0], more + ("\"" + rest));
    }
  }

  lemma CloseSkips(c: char, text: string)
    ensures CloseQuote(UnitChar(UNIT_SPECIALS, c) + text) == Before(UnitChar(UNIT_SPECIALS, c), CloseQuote(text))
  {
    var x := UnitChar(UNIT_SPECIALS, c);
    var whole := x + text;
    if c == '%' {
      assert whole == ['%'] + (['%'] + text) && whole[1..] == ['%'] + text && (['%'] + text)[1..] == text;
      assert whole[..1] == ['%'] && (['%'] + text)[..1] == ['%'];
      assert x == ['%'] + ['%'];
      if CloseQuote(text).Some? {
        Regroup(['%'], ['%'], CloseQuote(text).value.inner);
      }
    } else if c in UNIT_SPECIALS {
      assert whole[..2] == x && whole[2..] == text;
    } else {
      assert whole[..1] == x && whole[1..] == text;
    }
  }

  lemma {:induction false} WordsReadBack(values: seq<string>)
    ensures WordsIn(Join(Quoted(values), " ")) == values
  {
    hide UnitEncode, EscapeSystemd, UnescapeSystemdQuotedValue, CloseQuote;
    if values != [] {
      var encoded := EscapeSystemd(values[0]);
      var after := if |values| == 1 then "" else " " + Join(Quoted(values[1..]), " ");
      QuotedCons(values);
      EscapeSystemdEncodes(values[0]);
      ClosesAfterEncoded(values[0], after);
      UnescapeSystemdInverts(values[0]);
      var text := ['"'] + (encoded + ("\"" + after));
      assert text[1..] == encoded + ("\"" + after);
      WordsReadBack(values[1..]);
      if |values| > 1 { assert after[1..] == Join(Quoted(values[1..]), " "); }
    }
  }

  lemma QuotedCons(values: seq<string>)
    requires values != []
    ensures Join(Quoted(values), " ")
         == ['"'] + (EscapeSystemd(values[0])
            + ("\"" + (if |values| == 1 then "" else " " + Join(Quoted(values[1..]), " "))))
  {
    hide EscapeSystemd;
    var encoded := EscapeSystemd(values[0]);
    assert Quoted(values)[0] == "\"" + encoded + "\"" && Quoted(values)[1..] == Quoted(values[1..]);
    if |values| == 1 {
      assert Quoted(values[1..]) == [] && "\"" + "" == "\"";
      assert ("\"" + encoded) + "\"" == ['"'] + (encoded + "\"");
    } else {
      Closing3(encoded, " " + Join(Quoted(values[1..]), " "));
    }
  }

  lemma Closing3(encoded: string, more: string)
    ensures ("\"" + encoded + "\"") + more == ['"'] + (encoded + ("\"" + more))
  {}

  lemma WordReadsBack(value: string)
    ensures WordsIn(SystemdQuote(value)) == [value]
  {
    WordsReadBack([value]);
    assert Quoted([value]) == [SystemdQuote(value)] by { assert [value][1..] == []; }
  }

  lemma {:induction false} PathReadsBack(path: string)
    ensures PathIn(PathValue(path)) == path
  {
    if path != "" {
      var rest := PathValue(path[1..]);
      PathReadsBack(path[1..]);
      Uncons(path);
      if path[0] == '%' {
        ReplaceHit("%%", "%", rest);
      } else {
        assert ([path[0]] + rest)[0] != '%';
        ReplaceMiss(path[0], rest, "%%", "%");
      }
    }
  }

  // ----- Finding a setting -----

  lemma {:induction false} LinesReadBack(current: string, line: string, rest: string)
    requires OneLine(line)
    ensures LinesOf(current, (line + "\n") + rest) == [current + line] + LinesOf("", rest)
    decreases |line|
  {
    var s := (line + "\n") + rest;
    if line == "" {
      assert s[1..] == rest && current + "" == current;
    } else {
      assert s[1..] == (line[1..] + "\n") + rest;
      LinesReadBack(current + [s[0]], line[1..], rest);
      Uncons(line);
      Regroup(current, [line[0]], line[1..]);
    }
  }

  lemma {:induction false} AllLinesReadBack(lines: seq<string>)
    requires forall i :: 0 <= i < |lines| ==> OneLine(lines[i])
    ensures LinesOf("", Lines(lines)) == lines + [""]
  {
    if lines != [] {
      LinesReadBack("", lines[0], Lines(lines[1..]));
      AllLinesReadBack(lines[1..]);
      assert "" + lines[0] == lines[0];
      Uncons(lines);
      Regroup([lines[0]], lines[1..], [""]);
    }
  }

  // The first line with the start is at k.
  lemma {:induction false} SettingFound(lines: seq<string>, start: string, k: nat, value: string)
    requires k < |lines| && lines[k] == start + value && forall i :: 0 <= i < k ==> !(start <= lines[i])
    ensures Setting(lines, start) == Some(value)
  {
    if k == 0 {
      assert (start + value)[|start|..] == value;
    } else {
      SettingFound(lines[1..], start, k - 1, value);
    }
  }

  function UnitLines(input: UnitInput): seq<string> {
    Opening(input) + SystemdUnit.EnvironmentLines(input.environment) + Closing(input)
  }

  predicate AllOnOneLine(input: UnitInput) {
    OtherTextOnOneLine(input) && forall e :: e in input.environment ==> OneLine(e.0) && OneLine(e.1)
  }

  predicate StartsEn(line: string) {
    |line| > 1 && line[0] == 'E' && line[1] == 'n'
  }

  lemma {:induction false} EnvironmentOnLines(entries: seq<Entries.Entry>)
    requires forall e :: e in entries ==> OneLine(e.0) && OneLine(e.1)
    ensures |SystemdUnit.EnvironmentLines(entries)| == |entries|
    ensures forall i :: 0 <= i < |entries| ==>
              OneLine(SystemdUnit.EnvironmentLines(entries)[i]) && StartsEn(SystemdUnit.EnvironmentLines(entries)[i])
  {
    if entries != [] {
      EscapeKeepsLine(entries[0].0 + "=" + entries[0].1);
      EnvironmentOnLines(entries[1..]);
    }
  }

  // A start that no environment line and no opening line but the last has.
  predicate OwnStart(start: string) {
    start in {"WorkingDirectory=", "ExecStart=", "StandardOutput=append:", "StandardError=append:"}
  }

  lemma OpeningOnLines(input: UnitInput)
    requires OneLine(input.workingDirectory)
    ensures |Opening(input)| == 7
    ensures forall i :: 0 <= i < 7 ==> OneLine(Opening(input)[i])
    ensures forall i, start :: 0 <= i < 7 && OwnStart(start) && (i < 6 || start != "WorkingDirectory=") ==>
              !(start <= Opening(input)[i])
  {
    hide SystemdQuote;
    EscapeKeepsLine(input.workingDirectory);
    forall i, start | 0 <= i < 7 && OwnStart(start) && (i < 6 || start != "WorkingDirectory=")
      ensures !(start <= Opening(input)[i])
    {
      FirstCharsDiffer(input, i, start);
    }
  }

  lemma FirstCharsDiffer(input: UnitInput, i: nat, start: string)
    requires i < 7 && OwnStart(start) && (i < 6 || start != "WorkingDirectory=")
    ensures !(start <= Opening(input)[i])
  {
    hide SystemdQuote;
    assert start[0] == 'W' || start[0] == 'E' || start[0] == 'S';
  }

  lemma ClosingOnLines(input: UnitInput)
    requires OtherTextOnOneLine(input)
    ensures |Closing(input)| == 8
    ensures forall i :: 0 <= i < 8 ==> OneLine(Closing(input)[i])
  {
    hide SystemdQuote, ReplaceAll, Join;
    CommandOnOneLine(input.execStart);
    ReplaceAllKeepsOut(input.stdoutPath, "%", "%%", '\n');
    ReplaceAllKeepsOut(input.stderrPath, "%", "%%", '\n');
  }

  lemma ClosingStarts(input: UnitInput)
    ensures |Closing(input)| == 8
    ensures Closing(input)[0] == "ExecStart=" + Join(Quoted(input.execStart), " ")
    ensures Closing(input)[3] == "StandardOutput=append:" + PathValue(input.stdoutPath)
    ensures Closing(input)[4] == "StandardError=append:" + PathValue(input.stderrPath)
    ensures forall i :: 0 <= i < 3 ==> !("StandardOutput=append:" <= Closing(input)[i])
    ensures forall i :: 0 <= i < 4 ==> !("StandardError=append:" <= Closing(input)[i])
  {
    hide SystemdQuote, ReplaceAll, Join, Quoted;
    var c := Closing(input);
    assert c[0][0] == 'E' && c[1][0] == 'R' && c[2][0] == 'R';
    assert c[3][8] == 'O' && "StandardError=append:"[8] == 'E';
  }

  lemma UnitReadsAsLines(input: UnitInput)
    requires AllOnOneLine(input)
    ensures LinesOf("", BuildSystemdUserService(input)) == UnitLines(input) + [""]
  {
    hide Lines, Opening, Closing, SystemdUnit.EnvironmentLines, OneLine;
    OpeningOnLines(input);
    ClosingOnLines(input);
    EnvironmentOnLines(input.environment);
    JoinEndingEmpty(UnitLines(input));
    AllLinesReadBack(UnitLines(input));
  }

  // A setting of the closing part comes after the opening and the environment.
  lemma ClosingSetting(input: UnitInput, start: string, k: nat, value: string)
    requires AllOnOneLine(input) && OwnStart(start) && start != "WorkingDirectory="
    requires k < |Closing(input)| && Closing(input)[k] == start + value
    requires forall i :: 0 <= i < k ==> !(start <= Closing(input)[i])
    ensures Setting(UnitLines(input) + [""], start) == Some(value)
  {
    hide Opening, Closing, SystemdUnit.EnvironmentLines, OneLine;
    OpeningOnLines(input);
    EnvironmentOnLines(input.environment);
    var lines := UnitLines(input) + [""];
    var n := |input.environment|;
    forall i | 0 <= i < 7 + n + k ensures !(start <= lines[i]) {
      if i < 7 {
        assert lines[i] == Opening(input)[i];
      } else if i < 7 + n {
        assert lines[i] == SystemdUnit.EnvironmentLines(input.environment)[i - 7];
        assert start[0] != 'E' || start[1] != 'n';
      } else {
        assert lines[i] == Closing(input)[i - 7 - n];
      }
    }
    assert lines[7 + n + k] == Closing(input)[k];
    SettingFound(lines, start, 7 + n + k, value);
  }

  /** Each setting of the unit holds its own value; the command is read back word by word. */
  lemma SettingsReadBack(input: UnitInput)
    requires AllOnOneLine(input)
    ensures var lines := LinesOf("", BuildSystemdUserService(input));
            && ReadWords(lines, "WorkingDirectory=") == Some([input.workingDirectory])
            && ReadWords(lines, "ExecStart=") == Some(input.execStart)
            && ReadPath(lines, "StandardOutput=append:") == Some(input.stdoutPath)
            && ReadPath(lines, "StandardError=append:") == Some(input.stderrPath)
  {
    hide Opening, Closing, UnitLines, WordsIn, PathIn, PathValue, SystemdQuote, Join, Quoted, Setting;
    UnitReadsAsLines(input);
    ClosingStarts(input);
    ClosingSetting(input, "ExecStart=", 0, Join(Quoted(input.execStart), " "));
    WordsReadBack(input.execStart);
    ClosingSetting(input, "StandardOutput=append:", 3, PathValue(input.stdoutPath));
    PathReadsBack(input.stdoutPath);
    ClosingSetting(input, "StandardError=append:", 4, PathValue(input.stderrPath));
    PathReadsBack(input.stderrPath);
    DirectorySetting(input);
    WordReadsBack(input.workingDirectory);
  }

  function ReadWords(lines: seq<string>, start: string): Option<seq<string>> {
    match Setting(lines, start)
    case Some(value) => Some(WordsIn(value))
    case None => None
  }

  function ReadPath(lines: seq<string>, start: string): Option<string> {
    match Setting(lines, start)
    case Some(value) => Some(PathIn(value))
    case None => None
  }

  lemma DirectorySetting(input: UnitInput)
    requires AllOnOneLine(input)
    ensures Setting(UnitLines(input) + [""], "WorkingDirectory=") == Some(SystemdQuote(input.workingDirectory))
  {
    hide SystemdQuote, Closing, SystemdUnit.EnvironmentLines, OneLine;
    OpeningOnLines(input);
    var lines := UnitLines(input) + [""];
    assert OwnStart("WorkingDirectory=");
    forall i | 0 <= i < 6 ensures !("WorkingDirectory=" <= lines[i]) {
      assert lines[i] == Opening(input)[i];
    }
    assert lines[6] == Opening(input)[6];
    SettingFound(lines, "WorkingDirectory=", 6, SystemdQuote(input.workingDirectory));
  }
}
