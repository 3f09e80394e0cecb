/**
 The two escaping schemes of service definitions.  Each is a chain of global replacements, undone by
 the chain of the opposite replacements.
 */
module ServiceEscapes {
  import opened Sequences
  import opened Strings

  // ----- XML entities (section 4.6 of XML 1.0) -----

  function EscapeXml(value: string): string {
    ReplaceAll(ReplaceAll(ReplaceAll(ReplaceAll(ReplaceAll(
      value, "&", "&amp;"), "<", "&lt;"), ">", "&gt;"), "\"", "&quot;"), "'", "&apos;")
  }

  function UnescapeXml(value: string): string {
    ReplaceAll(ReplaceAll(ReplaceAll(ReplaceAll(ReplaceAll(
      value, "&apos;", "'"), "&quot;", "\""), "&gt;", ">"), "&lt;", "<"), "&amp;", "&")
  }

  predicate IsXmlSpecial(c: char) {
    c == '&' || c == '<' || c == '>' || c == '"' || c == '\''
  }

  function Entity(c: char): string
    requires IsXmlSpecial(c)
  {
    if c == '&' then "&amp;" else if c == '<' then "&lt;" else if c == '>' then "&gt;"
    else if c == '"' then "&quot;" else "&apos;"
  }

  // Each character on its own: the first n of & < > " ' become entities.
  function XmlRank(c: char): nat {
    if c == '&' then 0 else if c == '<' then 1 else if c == '>' then 2 else if c == '"' then 3
    else if c == '\'' then 4 else 5
  }

  function XmlChar(n: nat, c: char): string {
    if IsXmlSpecial(c) && XmlRank(c) < n then Entity(c) else [c]
  }

  function XmlEncode(n: nat, s: string): string {
    if s == "" then "" else XmlChar(n, s[0]) + XmlEncode(n, s[1..])
  }

  lemma {:induction false} XmlEncodeNothing(s: string)
    ensures XmlEncode(0, s) == s
  {
    if s != "" {
      XmlEncodeNothing(s[1..]);
      Uncons(s);
    }
  }

  lemma {:induction false} ReplaceSkips(x: string, rest: string, pattern: string, replacement: string)
    requires pattern != "" && forall i :: 0 <= i < |x| ==> x[i] != pattern[0]
    ensures ReplaceAll(x + rest, pattern, replacement) == x + ReplaceAll(rest, pattern, replacement)
  {
    if x == "" {
      assert x + rest == rest;
    } else {
      ReplaceSkips(x[1..], rest, pattern, replacement);
      ReplaceMiss(x[0], x[1..] + rest, pattern, replacement);
      Uncons(x);
      Regroup([x[0]], x[1..], rest);
      Regroup([x[0]], x[1..], ReplaceAll(rest, pattern, replacement));
    }
  }

  // One escaping replacement turns the next special character into its entity.
  lemma {:induction false} EscapeStage(c: char, s: string)
    requires IsXmlSpecial(c)
    ensures ReplaceAll(XmlEncode(XmlRank(c), s), [c], Entity(c)) == XmlEncode(XmlRank(c) + 1, s)
  {
    if s != "" {
      var n := XmlRank(c);
      var rest := XmlEncode(n, s[1..]);
      EscapeStage(c, s[1..]);
      if s[0] == c {
        ReplaceHit([c], Entity(c), rest);
      } else {
        EntityHasNo(c, s[0]);
        ReplaceSkips(XmlChar(n, s[0]), rest, [c], Entity(c));
      }
    }
  }

  lemma EntityHasNo(c: char, d: char)
    requires IsXmlSpecial(c) && d != c
    ensures forall i :: 0 <= i < |XmlChar(XmlRank(c), d)| ==> XmlChar(XmlRank(c), d)[i] != c
    ensures XmlChar(XmlRank(c) + 1, d) == XmlChar(XmlRank(c), d)
  {}

  // One unescaping replacement turns the last entity back; the others cannot match inside one another.
  lemma {:induction false} UnescapeStage(c: char, s: string)
    requires IsXmlSpecial(c)
    ensures ReplaceAll(XmlEncode(XmlRank(c) + 1, s), Entity(c), [c]) == XmlEncode(XmlRank(c), s)
  {
    if s != "" {
      var n := XmlRank(c);
      var rest := XmlEncode(n + 1, s[1..]);
      UnescapeStage(c, s[1..]);
      if s[0] == c {
        ReplaceHit(Entity(c), [c], rest);
      } else {
        EntityHasNo(c, s[0]);
        OtherEntity(c, s[0], rest);
      }
    }
  }

  lemma OtherEntity(c: char, d: char, rest: string)
    requires IsXmlSpecial(c) && d != c
    ensures var x := XmlChar(XmlRank(c), d);
            ReplaceAll(x + rest, Entity(c), [c]) == x + ReplaceAll(rest, Entity(c), [c])
  {
    var x := XmlChar(XmlRank(c), d);
    if x == [d] {
      ReplaceSkips(x, rest, Entity(c), [c]);
    } else {
      var tail := x[1..];
      assert x == ['&'] + tail;
      EntitiesDiffer(c, d, rest);
      ReplaceSkips(tail, rest, Entity(c), [c]);
      Regroup(['&'], tail, rest);
      ReplaceMiss('&', tail + rest, Entity(c), [c]);
      Regroup(['&'], tail, ReplaceAll(rest, Entity(c), [c]));
    }
  }

  lemma EntitiesDiffer(c: char, d: char, rest: string)
    requires IsXmlSpecial(c) && IsXmlSpecial(d) && d != c
    ensures !(Entity(c) <= Entity(d) + rest)
    ensures Entity(d)[0] == '&' && forall i :: 0 < i < |Entity(d)| ==> Entity(d)[i] != '&'
  {
    var text := Entity(d) + rest;
    assert text[1] == Entity(d)[1] && text[2] == Entity(d)[2];
  }

  lemma EscapeXmlEncodes(value: string)
    ensures EscapeXml(value) == XmlEncode(5, value)
  {
    XmlEncodeNothing(value);
    EscapeStage('&', value);
    EscapeStage('<', value);
    EscapeStage('>', value);
    EscapeStage('"', value);
    EscapeStage('\'', value);
  }

  /** The chain of replacements that unescapes undoes the chain that escapes. */
  lemma UnescapeXmlInverts(value: string)
    ensures UnescapeXml(EscapeXml(value)) == value
  {
    EscapeXmlEncodes(value);
    UnescapeStage('\'', value);
    UnescapeStage('"', value);
    UnescapeStage('>', value);
    UnescapeStage('<', value);
    UnescapeStage('&', value);
    XmlEncodeNothing(value);
  }

  /** Escaped text holds no tag delimiter. */
  lemma {:induction false} EscapedHasNoTag(value: string)
    ensures '<' !in EscapeXml(value) && '>' !in EscapeXml(value)
  {
    EscapeXmlEncodes(value);
    EncodedHasNoTag(value);
  }

  lemma {:induction false} EncodedHasNoTag(s: string)
    ensures '<' !in XmlEncode(5, s) && '>' !in XmlEncode(5, s)
  {
    if s != "" {
      EncodedHasNoTag(s[1..]);
      assert '<' !in XmlChar(5, s[0]) && '>' !in XmlChar(5, s[0]);
    }
  }

  // ----- systemd quoting -----

  function EscapeSystemd(value: string): string {
    ReplaceAll(ReplaceAll(ReplaceAll(ReplaceAll(
      value, "\\", "\\\\"), "\"", "\\\""), "$", "\\$"), "%", "%%")
  }

  function SystemdQuote(value: string): string {
    "\"" + EscapeSystemd(value) + "\""
  }

  function UnescapeSystemdQuotedValue(value: string): string {
    ReplaceAll(ReplaceAll(ReplaceAll(ReplaceAll(
      value, "%%", "%"), "\\\"", "\""), "\\$", "$"), "\\\\", "\\")
  }

  predicate IsUnitSpecial(c: char) {
    c == '\\' || c == '"' || c == '$' || c == '%'
  }

  function UnitCode(c: char): string {
    if c == '%' then "%%" else ['\\', c]
  }

  // Each character on its own; those in the set are encoded.
  function UnitChar(encoded: set<char>, c: char): string {
    if c in encoded then UnitCode(c) else [c]
  }

  function UnitEncode(encoded: set<char>, s: string): string {
    if s == "" then "" else UnitChar(encoded, s[0]) + UnitEncode(encoded, s[1..])
  }

  lemma {:induction false} UnitEncodeNothing(s: string)
    ensures UnitEncode({}, s) == s
  {
    if s != "" {
      UnitEncodeNothing(s[1..]);
      Uncons(s);
    }
  }

  // The characters escaped so far put no c into the text, except the backslash, which comes first.
  lemma {:induction false} UnitEscapeStage(encoded: set<char>, c: char, s: string)
    requires c !in encoded && (c == '\\' ==> encoded == {}) && (c == '%' || '%' !in encoded)
    ensures ReplaceAll(UnitEncode(encoded, s), [c], UnitCode(c)) == UnitEncode(encoded + {c}, s)
  {
    if s != "" {
      var rest := UnitEncode(encoded, s[1..]);
      UnitEscapeStage(encoded, c, s[1..]);
      if s[0] == c {
        ReplaceHit([c], UnitCode(c), rest);
      } else {
        ReplaceSkips(UnitChar(encoded, s[0]), rest, [c], UnitCode(c));
      }
    }
  }

  // While c is encoded, no encoded text starts with a plain c.
  lemma UnitEncodeHead(encoded: set<char>, c: char, s: string)
    requires c in encoded && c != '%' && c != '\\' && '%' !in encoded
    ensures UnitEncode(encoded, s) == "" || UnitEncode(encoded, s)[0] != c
  {}

  lemma PairMisses(c: char, d: char, rest: string)
    requires d != c && c != '\\' && c != '%' && d != '%'
    requires rest != "" ==> rest[0] != c
    ensures !(UnitCode(c) <= ['\\'] + ([d] + rest)) && !(UnitCode(c) <= [d] + rest)
  {
    var text := ['\\'] + ([d] + rest);
    assert text[1] == d;
    if rest != "" { assert ([d] + rest)[1] == rest[0]; }
  }

  // No other character, encoded or not, is taken for the encoding of c, even with what follows it.
  lemma OtherUnitChar(encoded: set<char>, c: char, d: char, rest: string)
    requires DecodableNext(encoded, c) && d != c
    requires c == '"' || c == '$' ==> rest == "" || rest[0] != c
    ensures var x := UnitChar(encoded, d);
            ReplaceAll(x + rest, UnitCode(c), [c]) == x + ReplaceAll(rest, UnitCode(c), [c])
  {
    var x := UnitChar(encoded, d);
    if x == [d] || c == '%' {
      ReplaceSkips(x, rest, UnitCode(c), [c]);
    } else {
      PairMisses(c, d, rest);
      ReplaceMiss2('\\', d, rest, UnitCode(c), [c]);
    }
  }

  // The percent sign is decoded first, the backslash last.
  ghost predicate DecodableNext(encoded: set<char>, c: char) {
    && c in encoded && (forall x :: x in encoded ==> IsUnitSpecial(x))
    && (c != '%' ==> '%' !in encoded)
    && (if c == '\\' then encoded == {'\\'} else '\\' in encoded)
  }

  lemma {:induction false} UnitUnescapeStage(encoded: set<char>, c: char, s: string)
    requires DecodableNext(encoded, c)
    ensures ReplaceAll(UnitEncode(encoded, s), UnitCode(c), [c]) == UnitEncode(encoded - {c}, s)
  {
    if s != "" {
      var rest := UnitEncode(encoded, s[1..]);
      UnitUnescapeStage(encoded, c, s[1..]);
      if s[0] == c {
        ReplaceHit(UnitCode(c), [c], rest);
      } else {
        if c == '"' || c == '$' { UnitEncodeHead(encoded, c, s[1..]); }
        OtherUnitChar(encoded, c, s[0], rest);
      }
    }
  }

  const UNIT_SPECIALS := {'\\', '"', '$', '%'}

  lemma EscapeSystemdEncodes(value: string)
    ensures EscapeSystemd(value) == UnitEncode(UNIT_SPECIALS, value)
  {
    hide ReplaceAll, UnitEncode;
    UnitEncodeNothing(value);
    UnitEscapeStage({}, '\\', value);
    UnitEscapeStage({'\\'}, '"', value);
    UnitEscapeStage({'\\', '"'}, '$', value);
    UnitEscapeStage({'\\', '"', '$'}, '%', value);
    assert {} + {'\\'} == {'\\'} && {'\\'} + {'"'} == {'\\', '"'};
    assert {'\\', '"'} + {'$'} == {'\\', '"', '$'} && {'\\', '"', '$'} + {'%'} == UNIT_SPECIALS;
  }

  /** Undoing the percent signs first and the backslashes last recovers every value. */
  lemma UnescapeSystemdInverts(value: string)
    ensures UnescapeSystemdQuotedValue(EscapeSystemd(value)) == value
  {
    hide ReplaceAll, UnitEncode;
    EscapeSystemdEncodes(value);
    UnitUnescapeStage(UNIT_SPECIALS, '%', value);
    UnitUnescapeStage({'\\', '"', '$'}, '"', value);
    UnitUnescapeStage({'\\', '$'}, '$', value);
    UnitUnescapeStage({'\\'}, '\\', value);
    UnitEncodeNothing(value);
    assert UNIT_SPECIALS - {'%'} == {'\\', '"', '$'} && {'\\', '"', '$'} - {'"'} == {'\\', '$'};
    assert {'\\', '$'} - {'$'} == {'\\'} && {'\\'} - {'\\'} == {};
  }

  // ----- The two schemes, character by character -----

  lemma {:induction false} XmlEncodeConcat(n: nat, a: string, b: string)
    ensures XmlEncode(n, a + b) == XmlEncode(n, a) + XmlEncode(n, b)
  {
    if a == "" {
      assert a + b == b;
    } else {
      assert (a + b)[1..] == a[1..] + b;
      XmlEncodeConcat(n, a[1..], b);
      Regroup(XmlChar(n, a[0]), XmlEncode(n, a[1..]), XmlEncode(n, b));
    }
  }

  lemma XmlEncodeOne(n: nat, c: char)
    ensures XmlEncode(n, [c]) == XmlChar(n, c)
  {
    assert [c][1..] == "" && XmlChar(n, c) + "" == XmlChar(n, c);
  }

  /** XML text is escaped character by character, each of the five by its own entity. */
  lemma XmlEscapesEach(a: string, b: string, c: char)
    ensures EscapeXml(a + b) == EscapeXml(a) + EscapeXml(b)
    ensures EscapeXml([c]) == match c
                              case '&' => "&amp;"
                              case '<' => "&lt;"
                              case '>' => "&gt;"
                              case '"' => "&quot;"
                              case '\'' => "&apos;"
                              case _ => [c]
  {
    hide EscapeXml, XmlEncode;
    EscapeXmlEncodes(a + b);
    EscapeXmlEncodes(a);
    EscapeXmlEncodes(b);
    EscapeXmlEncodes([c]);
    XmlEncodeConcat(5, a, b);
    XmlEncodeOne(5, c);
  }

  lemma {:induction false} UnitEncodeConcat(encoded: set<char>, a: string, b: string)
    ensures UnitEncode(encoded, a + b) == UnitEncode(encoded, a) + UnitEncode(encoded, b)
  {
    if a == "" {
      assert a + b == b;
    } else {
      assert (a + b)[1..] == a[1..] + b;
      UnitEncodeConcat(encoded, a[1..], b);
      Regroup(UnitChar(encoded, a[0]), UnitEncode(encoded, a[1..]), UnitEncode(encoded, b));
    }
  }

  lemma UnitEncodeOne(encoded: set<char>, c: char)
    ensures UnitEncode(encoded, [c]) == UnitChar(encoded, c)
  {
    assert [c][1..] == "" && UnitChar(encoded, c) + "" == UnitChar(encoded, c);
  }

  /** Unit values are quoted, and escaped character by character. */
  lemma SystemdEscapesEach(a: string, b: string, c: char)
    ensures SystemdQuote(a) == ['"'] + EscapeSystemd(a) + ['"']
    ensures EscapeSystemd(a + b) == EscapeSystemd(a) + EscapeSystemd(b)
    ensures EscapeSystemd([c]) == match c
                                  case '\\' => "\\\\"
                                  case '"' => "\\\""
                                  case '$' => "\\$"
                                  case '%' => "%%"
                                  case _ => [c]
  {
    hide EscapeSystemd, UnitEncode;
    EscapeSystemdEncodes(a + b);
    EscapeSystemdEncodes(a);
    EscapeSystemdEncodes(b);
    EscapeSystemdEncodes([c]);
    UnitEncodeConcat(UNIT_SPECIALS, a, b);
    UnitEncodeOne(UNIT_SPECIALS, c);
  }
}
