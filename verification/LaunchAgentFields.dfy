/**
 The lines of a launch agent definition beside its environment, read as launchd would: each key is followed
 by its own value.
 */
module LaunchAgentFields {
  import opened Options
  import opened Sequences
  import opened ServiceEscapes
  import opened Strings
  import opened LaunchAgent

  // ----- A reader of the values -----

  function KeyText(key: string): string {
    "<key>" + (key + ("</key>" + "\n  "))
  }

  // What follows the first element of this key.
  function ValueOf(plist: string, key: string): Option<string> {
    match Until(plist, KeyText(key))
    case Some(cut) => Some(cut.after)
    case None => None
  }

  function StringValue(value: string): Option<string> {
    if "<string>" <= value then
      match Until(value[8..], "</string>")
      case Some(cut) => Some(UnescapeXml(cut.before))
      case None => None
    else None
  }

  function BoolValue(value: string): Option<bool> {
    if "<true/>" <= value then Some(true) else if "<false/>" <= value then Some(false) else None
  }

  lemma {:induction false} UntilTakesStop(s: string, stop: string)
    ensures Until(s, stop).Some? ==> |Until(s, stop).value.after| + |stop| <= |s|
  {
    if !(stop <= s) && s != "" { UntilTakesStop(s[1..], stop); }
  }

  // The string elements in a text.
  function StringsIn(s: string): seq<string>
    decreases |s|
  {
    match Until(s, "<string>")
    case None => []
    case Some(open) =>
      UntilTakesStop(s, "<string>");
      match Until(open.after, "</string>")
      case None => []
      case Some(close) =>
        UntilTakesStop(open.after, "</string>");
        [UnescapeXml(close.before)] + StringsIn(close.after)
  }

  function ArrayValue(value: string): Option<seq<string>> {
    if "<array>" <= value then
      match Until(value[7..], "</array>")
      case Some(cut) => Some(StringsIn(cut.before))
      case None => None
    else None
  }

  // ----- Finding a key -----

  lemma AvoidsLonger(x: string, tag: string, longer: string)
    requires Avoids(x, tag) && tag <= longer
    ensures Avoids(x, longer)
  {
    forall i | 0 <= i < |x| ensures Differs(x, i, longer) {
      assert Differs(x, i, tag);
      var k :| 0 <= k < |tag| && 0 <= i + k < |x| && x[i + k] != tag[k];
      assert longer[k] == tag[k];
    }
  }

  // The element of a key is not taken for another that differs from it at some place.
  lemma OtherKeyAvoids(text: string, key: string, k: nat)
    requires '<' !in text && k < |text| && k < |key| && text[k] != key[k]
    ensures Avoids("  " + Element("key", text), KeyText(key))
  {
    var stop := KeyText(key);
    var opening := ("key" + ">") + text;
    assert stop[5 + k] == key[k];
    assert opening[4 + k] == text[k];
    AvoidsTag(opening, stop, 5 + k);
    assert "<" + opening == Tag("key") + text;
    AvoidsTag("/" + "key" + ">", stop, 1);
    AvoidsConcat("<" + opening, Tag("/" + "key"), stop);
    AvoidsPlain("  ", stop);
    AvoidsConcat("  ", Element("key", text), stop);
  }

  lemma NoKeyAvoids(line: string, key: string)
    requires Avoids(line, "<key>")
    ensures Avoids(line, KeyText(key)) && Avoids("  " + line, KeyText(key))
  {
    assert KeyText(key)[..5] == "<key>";
    AvoidsLonger(line, "<key>", KeyText(key));
    AvoidsPlain("  ", KeyText(key));
    AvoidsConcat("  ", line, KeyText(key));
  }

  lemma TagAvoidsKey(name: string, key: string)
    requires '<' !in name && name != "" && name[0] != 'k'
    ensures Avoids(Tag(name), KeyText(key)) && Avoids("  " + Tag(name), KeyText(key))
  {
    AvoidsTag(name + ">", "<key>", 1);
    NoKeyAvoids(Tag(name), key);
  }

  lemma StringAvoidsKey(value: string, key: string)
    ensures Avoids("  " + StringElement(value), KeyText(key))
  {
    StringElementAvoids(value);
    NoKeyAvoids(StringElement(value), key);
  }

  lemma {:induction false} ArgumentsAvoidTag(values: seq<string>, tag: string)
    requires tag != "" && tag[0] == '<' && forall v :: Avoids(StringElement(v), tag)
    ensures Avoids(PlistStringArray(values), tag)
  {
    if values != [] {
      hide StringElement, Avoids;
      AvoidsPlain("    ", tag);
      AvoidsConcat("    ", StringElement(values[0]), tag);
      ArgumentsAvoidTag(values[1..], tag);
      AvoidsPlain("\n", tag);
      AvoidsConcat("\n", PlistStringArray(values[1..]), tag);
      AvoidsConcat("    " + StringElement(values[0]), "\n" + PlistStringArray(values[1..]), tag);
    }
  }

  // Where a key stands among the lines, and which lines come before it.
  lemma ValueFound(lines: seq<string>, k: nat, key: string, value: string, rest: string)
    requires k + 1 < |lines| && lines[k] == "  " + Element("key", key) && lines[k + 1] == "  " + value
    requires forall i :: 0 <= i < k ==> Avoids(lines[i], KeyText(key))
    ensures ValueOf(Lines(lines) + rest, key) == Some(value + ("\n" + (Lines(lines[k + 2..]) + rest)))
  {
    hide Avoids, Lines, Element;
    var stop := KeyText(key);
    var tail := Lines(lines[k + 2..]) + rest;
    var before := Lines(lines[..k]) + "  ";
    LinesAvoid(lines[..k], stop);
    AvoidsPlain("  ", stop);
    AvoidsConcat(Lines(lines[..k]), "  ", stop);
    SplitAround(lines, k);
    KeyLine(key);
    UntilFinds(before, stop, value + ("\n" + tail));
    Around(Lines(lines[..k]), "<key>" + (key + "</key>"), value, Lines(lines[k + 2..]), rest);
    assert stop == ("<key>" + (key + "</key>")) + "\n  ";
  }

  lemma KeyLine(key: string)
    ensures Element("key", key) == "<key>" + (key + "</key>")
  {
    TagTexts();
    assert Tag("/" + "key") == "</key>" && Tag("key") == "<key>";
  }

  lemma CutAround(lines: seq<string>, k: nat)
    requires k + 1 < |lines|
    ensures lines == lines[..k] + ([lines[k], lines[k + 1]] + lines[k + 2..])
  {}

  lemma SplitAround(lines: seq<string>, k: nat)
    requires k + 1 < |lines|
    ensures Lines(lines) == Lines(lines[..k]) + (((lines[k] + "\n") + (lines[k + 1] + "\n")) + Lines(lines[k + 2..]))
  {
    hide Lines;
    CutAround(lines, k);
    LinesAppend(lines[..k], [lines[k], lines[k + 1]] + lines[k + 2..]);
    LinesAppend([lines[k], lines[k + 1]], lines[k + 2..]);
    LinesOfTwo(lines[k], lines[k + 1]);
  }

  lemma Around(a: string, element: string, value: string, c: string, rest: string)
    ensures (a + (((("  " + element) + "\n") + (("  " + value) + "\n")) + c)) + rest
         == (a + "  ") + ((element + "\n  ") + (value + ("\n" + (c + rest))))
  {}

  // ----- The values -----

  // The text after the preamble.
  function AfterPreamble(input: LaunchAgentInput): string {
    Lines(LaunchAgent.EnvironmentLines(input.environment)) + Lines(CLOSING)
  }

  lemma PlistStartsWithPreamble(input: LaunchAgentInput)
    ensures BuildLaunchAgentPlist(input) == Lines(Preamble(input)) + AfterPreamble(input)
  {
    hide Preamble, Lines, EntryLines, LaunchAgent.EnvironmentLines;
    var preamble, env := Preamble(input), LaunchAgent.EnvironmentLines(input.environment);
    JoinEndingEmpty(preamble + env + CLOSING);
    LinesAppend(preamble + env, CLOSING);
    LinesAppend(preamble, env);
    Regroup(Lines(preamble), Lines(env), Lines(CLOSING));
  }

  lemma StringReads(value: string, rest: string)
    ensures StringValue(StringElement(value) + ("\n" + rest)) == Some(value)
  {
    hide Avoids, EscapeXml, UnescapeXml, Until;
    var escaped := EscapeXml(value);
    TagTexts();
    assert Tag("string") == "<string>" && Tag("/" + "string") == "</string>";
    assert StringElement(value) + ("\n" + rest) == "<string>" + (escaped + ("</string>" + ("\n" + rest)));
    assert ("<string>" + (escaped + ("</string>" + ("\n" + rest))))[8..] == escaped + ("</string>" + ("\n" + rest));
    EscapedHasNoTag(value);
    AvoidsPlain(escaped, "</string>");
    UntilFinds(escaped, "</string>", "\n" + rest);
    UnescapeXmlInverts(value);
  }

  lemma BoolReads(value: bool, rest: string)
    ensures BoolValue((if value then Tag("true/") else Tag("false/")) + rest) == Some(value)
  {
    assert "<" + ("true/" + ">") == "<true/>" && "<" + ("false/" + ">") == "<false/>";
    if !value { assert ("<false/>" + rest)[1] == 'f'; }
  }

  lemma {:induction false} StringsReadBack(values: seq<string>, tail: string)
    requires Avoids(tail, "<string>")
    ensures StringsIn(PlistStringArray(values) + tail) == values
  {
    hide Avoids, EscapeXml, UnescapeXml;
    if values == [] {
      UntilNever(tail, "<string>");
      assert PlistStringArray(values) + tail == tail;
    } else {
      hide Until;
      var escaped := EscapeXml(values[0]);
      var more := if |values| == 1 then tail else "\n" + (PlistStringArray(values[1..]) + tail);
      ArrayCons(values, tail);
      AvoidsPlain("    ", "<string>");
      UntilFinds("    ", "<string>", escaped + ("</string>" + more));
      EscapedHasNoTag(values[0]);
      AvoidsPlain(escaped, "</string>");
      UntilFinds(escaped, "</string>", more);
      UnescapeXmlInverts(values[0]);
      if |values| == 1 {
        UntilNever(tail, "<string>");
        StringsInNone(tail);
      } else {
        StringsReadBack(values[1..], tail);
        StringsInSkipsLineFeed(PlistStringArray(values[1..]) + tail);
      }
    }
  }

  lemma {:induction false} UntilNever(x: string, stop: string)
    requires Avoids(x, stop) && stop != ""
    ensures Until(x, stop) == None
  {
    if x != "" {
      AvoidsNext(x, "", stop);
      assert x + "" == x && x[1..] + "" == x[1..];
      UntilNever(x[1..], stop);
    }
  }

  lemma StringsInNone(s: string)
    requires Until(s, "<string>") == None
    ensures StringsIn(s) == []
  {}

  lemma StringsInSkipsLineFeed(s: string)
    ensures StringsIn("\n" + s) == StringsIn(s)
  {
    assert ("\n" + s)[1..] == s && ("\n" + s)[0] != "<string>"[0];
  }

  lemma ElementText(value: string)
    ensures StringElement(value) == "<string>" + (EscapeXml(value) + "</string>")
  {
    hide EscapeXml;
    TagTexts();
    assert Tag("string") == "<string>" && Tag("/" + "string") == "</string>";
    Regroup("<string>", EscapeXml(value), "</string>");
  }

  lemma ArrayCons(values: seq<string>, tail: string)
    requires values != []
    ensures PlistStringArray(values) + tail
         == "    " + ("<string>" + (EscapeXml(values[0]) + ("</string>"
            + (if |values| == 1 then tail else "\n" + (PlistStringArray(values[1..]) + tail)))))
  {
    hide EscapeXml, StringElement;
    ElementText(values[0]);
    var escaped := EscapeXml(values[0]);
    if |values| == 1 {
      assert Indented(values) == ["    " + StringElement(values[0])];
      Rightmost("    ", "<string>", escaped, "</string>", tail);
    } else {
      assert Indented(values) == ["    " + StringElement(values[0])] + Indented(values[1..]);
      JoinCons("    " + StringElement(values[0]), Indented(values[1..]));
      hide Indented, Join;
      var rest := PlistStringArray(values[1..]);
      Regroup("    " + StringElement(values[0]), "\n" + rest, tail);
      Regroup("\n", rest, tail);
      Rightmost("    ", "<string>", escaped, "</string>", "\n" + (rest + tail));
    }
  }

  lemma JoinCons(first: string, rest: seq<string>)
    requires rest != []
    ensures Join([first] + rest, "\n") == first + ("\n" + Join(rest, "\n"))
  {
    assert ([first] + rest)[1..] == rest;
  }

  lemma Rightmost(a: string, b: string, c: string, d: string, e: string)
    ensures (a + (b + (c + d))) + e == a + (b + (c + (d + e)))
  {}

  // ----- The preamble -----

  // The line of each key.
  function Place(key: string): nat {
    if key == "Label" then 4
    else if key == "ProgramArguments" then 6
    else if key == "RunAtLoad" then 10
    else if key == "KeepAlive" then 12
    else if key == "StandardOutPath" then 14
    else if key == "StandardErrorPath" then 16
    else 18
  }

  lemma KeysDiffer(text: string, key: string)
    requires text in KEYS && key in KEYS && text != key
    ensures '<' !in text && text != "" && key != ""
    ensures text[0] != key[0] || (|text| > 8 && |key| > 8 && text[8] != key[8])
  {}

  lemma OtherKeysAvoid(key: string)
    requires key in KEYS
    ensures forall text :: text in KEYS && text != key ==> Avoids("  " + Element("key", text), KeyText(key))
  {
    hide Avoids, Element, KEYS;
    forall text | text in KEYS && text != key ensures Avoids("  " + Element("key", text), KeyText(key)) {
      KeysDiffer(text, key);
      OtherKeyAvoids(text, key, if text[0] != key[0] then 0 else 8);
    }
  }

  lemma HeadTagsAvoid(key: string)
    ensures Avoids(Tag(XML_DECLARATION), KeyText(key)) && Avoids(Tag(PLIST_VERSION), KeyText(key))
  {
    hide Avoids, Tag;
    TagAvoidsKey(XML_DECLARATION, key);
    TagAvoidsKey(PLIST_VERSION, key);
  }

  lemma DoctypeTagAvoids(key: string)
    ensures Avoids(Tag(DOCTYPE), KeyText(key))
  {
    hide Avoids, Tag;
    var dtd := " \"http://www.apple.com" + DTD_PATH;
    DtdPlain();
    PlainConcat(APPLE_DTD, dtd);
    PlainConcat("!DOCTYPE plist PUBLIC ", APPLE_DTD + dtd);
    TagAvoidsKey(DOCTYPE, key);
  }

  lemma ShortTagsAvoid(key: string)
    ensures forall name :: name in {"dict", "array", "/array", "true/", "false/"} ==>
      Avoids(Tag(name), KeyText(key)) && Avoids("  " + Tag(name), KeyText(key))
  {
    hide Avoids, Tag;
    forall name | name in {"dict", "array", "/array", "true/", "false/"}
      ensures Avoids(Tag(name), KeyText(key)) && Avoids("  " + Tag(name), KeyText(key))
    {
      TagAvoidsKey(name, key);
    }
  }

  lemma ValuesAvoid(input: LaunchAgentInput, key: string)
    ensures Avoids(PlistStringArray(input.programArguments), KeyText(key))
    ensures forall value :: Avoids("  " + StringElement(value), KeyText(key))
  {
    hide Avoids, StringElement;
    forall value ensures Avoids(StringElement(value), "<key>") { StringElementAvoids(value); }
    forall value ensures Avoids("  " + StringElement(value), KeyText(key)) { StringAvoidsKey(value, key); }
    ArgumentsAvoidTag(input.programArguments, "<key>");
    NoKeyAvoids(PlistStringArray(input.programArguments), key);
  }

  lemma OtherLinesAvoid(input: LaunchAgentInput, key: string)
    requires key in KEYS
    ensures forall i :: 0 <= i < 20 && i != Place(key) ==> Avoids(Preamble(input)[i], KeyText(key))
  {
    hide Avoids, Element, StringElement, PlistStringArray, Tag;
    HeadTagsAvoid(key);
    DoctypeTagAvoids(key);
    ShortTagsAvoid(key);
    ValuesAvoid(input, key);
    OtherKeysAvoid(key);
  }

  // The key's own value is found, whatever is on the other lines.
  lemma PreambleValue(input: LaunchAgentInput, key: string, value: string) returns (rest: string)
    requires key in KEYS
    requires Preamble(input)[Place(key)] == "  " + Element("key", key)
    requires Preamble(input)[Place(key) + 1] == "  " + value
    ensures ValueOf(BuildLaunchAgentPlist(input), key) == Some(value + ("\n" + rest))
    ensures Place(key) + 2 <= |Preamble(input)|
    ensures rest == Lines(Preamble(input)[Place(key) + 2..]) + AfterPreamble(input)
  {
    hide Avoids, Preamble, Lines, Element;
    var lines := Preamble(input);
    PreambleLength(input);
    OtherLinesAvoid(input, key);
    PlistStartsWithPreamble(input);
    ValueFound(lines, Place(key), key, value, AfterPreamble(input));
    rest := Lines(lines[Place(key) + 2..]) + AfterPreamble(input);
  }

  lemma PreambleLength(input: LaunchAgentInput)
    ensures |Preamble(input)| == 20
  {}

  /** Each key of the definition is followed by its own value. */
  lemma FieldsReadBack(input: LaunchAgentInput)
    ensures var plist := BuildLaunchAgentPlist(input);
            && StringAt(plist, "Label") == Some(input.serviceLabel)
            && StringAt(plist, "StandardOutPath") == Some(input.stdoutPath)
            && StringAt(plist, "StandardErrorPath") == Some(input.stderrPath)
            && StringAt(plist, "WorkingDirectory") == Some(input.workingDirectory)
  {
    hide BuildLaunchAgentPlist, StringElement, StringValue, KEYS, Element;
    KeysListed();
    StringKeys(input);
    var r0 := PreambleValue(input, "Label", StringElement(input.serviceLabel));
    StringReads(input.serviceLabel, r0);
    var r1 := PreambleValue(input, "StandardOutPath", StringElement(input.stdoutPath));
    StringReads(input.stdoutPath, r1);
    var r2 := PreambleValue(input, "StandardErrorPath", StringElement(input.stderrPath));
    StringReads(input.stderrPath, r2);
    var r3 := PreambleValue(input, "WorkingDirectory", StringElement(input.workingDirectory));
    StringReads(input.workingDirectory, r3);
  }

  function StringAt(plist: string, key: string): Option<string> {
    match ValueOf(plist, key)
    case Some(value) => StringValue(value)
    case None => None
  }

  function BoolAt(plist: string, key: string): Option<bool> {
    match ValueOf(plist, key)
    case Some(value) => BoolValue(value)
    case None => None
  }

  lemma KeysListed()
    ensures "Label" in KEYS && "ProgramArguments" in KEYS && "RunAtLoad" in KEYS && "KeepAlive" in KEYS
    ensures "StandardOutPath" in KEYS && "StandardErrorPath" in KEYS && "WorkingDirectory" in KEYS
  {}

  lemma StringKeys(input: LaunchAgentInput)
    ensures Place("Label") == 4 && Place("StandardOutPath") == 14
    ensures Place("StandardErrorPath") == 16 && Place("WorkingDirectory") == 18
    ensures var p := Preamble(input);
            && |p| == 20
            && p[4] == "  " + Element("key", "Label") && p[5] == "  " + StringElement(input.serviceLabel)
            && p[14] == "  " + Element("key", "StandardOutPath") && p[15] == "  " + StringElement(input.stdoutPath)
            && p[16] == "  " + Element("key", "StandardErrorPath") && p[17] == "  " + StringElement(input.stderrPath)
            && p[18] == "  " + Element("key", "WorkingDirectory")
            && p[19] == "  " + StringElement(input.workingDirectory)
  {
    hide Element, StringElement, Tag, PlistStringArray;
  }

  lemma OtherKeys(input: LaunchAgentInput)
    ensures Place("RunAtLoad") == 10 && Place("KeepAlive") == 12 && Place("ProgramArguments") == 6
    ensures var p := Preamble(input);
            && |p| == 20
            && p[6] == "  " + Element("key", "ProgramArguments") && p[7] == "  " + Tag("array")
            && p[8] == PlistStringArray(input.programArguments) && p[9] == "  " + Tag("/array")
            && p[10] == "  " + Element("key", "RunAtLoad")
            && p[11] == "  " + (if input.runAtLoad then Tag("true/") else Tag("false/"))
            && p[12] == "  " + Element("key", "KeepAlive")
            && p[13] == "  " + (if input.keepAlive then Tag("true/") else Tag("false/"))
  {
    hide Element, StringElement, Tag, PlistStringArray;
  }

  /** The two switches are followed by their own values. */
  lemma SwitchesReadBack(input: LaunchAgentInput)
    ensures BoolAt(BuildLaunchAgentPlist(input), "RunAtLoad") == Some(input.runAtLoad)
    ensures BoolAt(BuildLaunchAgentPlist(input), "KeepAlive") == Some(input.keepAlive)
  {
    hide BuildLaunchAgentPlist, BoolValue, KEYS, Element, Tag, Preamble, Place;
    KeysListed();
    OtherKeys(input);
    var r0 := PreambleValue(input, "RunAtLoad", if input.runAtLoad then Tag("true/") else Tag("false/"));
    BoolReads(input.runAtLoad, "\n" + r0);
    var r1 := PreambleValue(input, "KeepAlive", if input.keepAlive then Tag("true/") else Tag("false/"));
    BoolReads(input.keepAlive, "\n" + r1);
  }

  function ArgumentsAt(plist: string): Option<seq<string>> {
    match ValueOf(plist, "ProgramArguments")
    case Some(value) => ArrayValue(value)
    case None => None
  }

  lemma ElementAvoidsArray(value: string)
    ensures Avoids(StringElement(value), "</array>")
  {
    hide Avoids, EscapeXml;
    EscapedHasNoTag(value);
    AvoidsTag("string" + ">", "</array>", 1);
    AvoidsPlain(EscapeXml(value), "</array>");
    AvoidsTag("/" + "string" + ">", "</array>", 2);
    AvoidsConcat(Tag("string"), EscapeXml(value), "</array>");
    AvoidsConcat(Tag("string") + EscapeXml(value), Tag("/" + "string"), "</array>");
  }

  lemma ArrayReads(values: seq<string>, rest: string)
    ensures ArrayValue("<array>" + ("\n" + (PlistStringArray(values) + ("\n  " + ("</array>" + rest))))) == Some(values)
  {
    hide Avoids, PlistStringArray, StringElement, Until, StringsIn;
    var args := PlistStringArray(values);
    var body := "\n" + (args + "\n  ");
    forall value ensures Avoids(StringElement(value), "</array>") { ElementAvoidsArray(value); }
    ArgumentsAvoidTag(values, "</array>");
    AvoidsPlain("\n", "</array>");
    AvoidsPlain("\n  ", "</array>");
    AvoidsConcat(args, "\n  ", "</array>");
    AvoidsConcat("\n", args + "\n  ", "</array>");
    UntilFinds(body, "</array>", rest);
    var value := "<array>" + ("\n" + (args + ("\n  " + ("</array>" + rest))));
    assert value[7..] == body + ("</array>" + rest);
    StringsInSkipsLineFeed(args + "\n  ");
    AvoidsPlain("\n  ", "<string>");
    StringsReadBack(values, "\n  ");
  }

  lemma LinesAfterArray(lines: seq<string>, args: string)
    requires |lines| >= 10 && lines[8] == args && lines[9] == "  " + "</array>"
    ensures Lines(lines[8..]) == args + ("\n  " + ("</array>" + ("\n" + Lines(lines[10..]))))
  {
    hide Lines;
    assert lines[8..] == [lines[8], lines[9]] + lines[10..];
    LinesAppend([lines[8], lines[9]], lines[10..]);
    LinesOfTwo(lines[8], lines[9]);
  }

  /** The arguments are read back as the list they were. */
  lemma ArgumentsReadBack(input: LaunchAgentInput)
    ensures ArgumentsAt(BuildLaunchAgentPlist(input)) == Some(input.programArguments)
  {
    hide BuildLaunchAgentPlist, ArrayValue, KEYS, Element, Preamble, Place, PlistStringArray, Lines;
    KeysListed();
    OtherKeys(input);
    ArrayTags();
    var rest := PreambleValue(input, "ProgramArguments", Tag("array"));
    var args := PlistStringArray(input.programArguments);
    LinesAfterArray(Preamble(input), args);
    var more := "\n" + Lines(Preamble(input)[10..]);
    assert rest == args + ("\n  " + ("</array>" + (more + AfterPreamble(input))));
    ArrayReads(input.programArguments, more + AfterPreamble(input));
  }

  lemma ArrayTags()
    ensures Tag("array") == "<array>" && Tag("/array") == "</array>"
  {}
}
