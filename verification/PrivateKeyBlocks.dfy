/** What redaction does to private keys as they are written (section 3 of RFC 7468), text by text. */
module PrivateKeyBlocks {
  import opened Options
  import opened Sequences
  import opened PrivateKeyRedaction

  predicate DashFree(s: string) {
    forall i :: 0 <= i < |s| ==> s[i] != '-'
  }

  // Spaces, digits and capital letters.
  predicate IsStem(s: string) {
    forall i :: 0 <= i < |s| ==> s[i] == ' ' || '0' <= s[i] <= '9' || 'A' <= s[i] <= 'Z'
  }

  // A label of a private key: such a stem, then the two words.
  ghost predicate NamesPrivateKey(name: string) {
    exists stem :: IsStem(stem) && name == stem + "PRIVATE KEY"
  }

  lemma PrivateKeyWords(stem: string)
    requires IsStem(stem)
    ensures IsPrivateKeyLabel(stem + "PRIVATE KEY") && DashFree(stem + "PRIVATE KEY")
  {
    var name := stem + "PRIVATE KEY";
    assert name[|stem|..] == "PRIVATE KEY";
    forall i | 0 <= i < |name| ensures IsLabelChar(name[i]) {
      if i >= |stem| { assert name[i] == "PRIVATE KEY"[i - |stem|]; }
    }
  }

  lemma LabelsExactly(name: string)
    ensures IsPrivateKeyLabel(name) <==> NamesPrivateKey(name)
  {
    if IsPrivateKeyLabel(name) {
      var stem := name[..|name| - |LABEL_SUFFIX|];
      assert name == stem + "PRIVATE KEY";
      assert IsStem(stem);
    }
    if stem :| IsStem(stem) && name == stem + "PRIVATE KEY" {
      PrivateKeyWords(stem);
    }
  }

  lemma BeginIsHead(name: string, rest: string)
    requires IsPrivateKeyLabel(name)
    ensures Head(("-----BEGIN " + name + "-----") + rest) == Some((Begin, 16 + |name|))
  {
    var s := ("-----BEGIN " + name + "-----") + rest;
    assert s[..11] == BEGIN_PREFIX && s[11..11 + |name|] == name && s[11 + |name|..16 + |name|] == DASHES;
    HeadIsHead(s, Begin, 16 + |name|);
  }

  lemma EndIsHead(name: string, rest: string)
    requires IsPrivateKeyLabel(name)
    ensures Head(("-----END " + name + "-----") + rest) == Some((End, 14 + |name|))
  {
    var s := ("-----END " + name + "-----") + rest;
    assert s[..9] == END_PREFIX && s[9..9 + |name|] == name && s[9 + |name|..14 + |name|] == DASHES;
    HeadIsHead(s, End, 14 + |name|);
  }

  lemma {:induction false} KeptPassesDashFree(x: string, rest: string)
    requires DashFree(x)
    ensures Kept(x + rest) == x + Kept(rest) && Skipped(x + rest) == Skipped(rest)
  {
    if x == "" {
      assert x + rest == rest;
    } else {
      var s := x + rest;
      assert s == [x[0]] + (x[1..] + rest) && s[1..] == x[1..] + rest;
      NoHeadWithoutDash(x[0], x[1..] + rest);
      KeptPassesDashFree(x[1..], rest);
      Uncons(x);
      Regroup([x[0]], x[1..], Kept(rest));
    }
  }

  lemma KeptOfDashFree(x: string)
    requires DashFree(x)
    ensures Kept(x) == x && Skipped(x) == ""
  {
    KeptPassesDashFree(x, "");
    assert x + "" == x;
  }

  /**
   A private-key block is replaced by the placeholder, whatever kind of key its boundaries name, and the
   text around it is kept.
   */
  lemma RedactsKeyBlock(before: string, stem: string, body: string, endStem: string, after: string)
    requires DashFree(before) && DashFree(body) && DashFree(after) && IsStem(stem) && IsStem(endStem)
    ensures Redacted(before
                     + (("-----BEGIN " + (stem + "PRIVATE KEY") + "-----")
                        + (body + (("-----END " + (endStem + "PRIVATE KEY") + "-----") + after))))
         == before + ("[redacted private key]" + after)
  {
    hide Kept, Skipped, Redacted, IsPrivateKeyLabel;
    var name, endName := stem + "PRIVATE KEY", endStem + "PRIVATE KEY";
    PrivateKeyWords(stem);
    PrivateKeyWords(endStem);
    var end := ("-----END " + endName + "-----") + after;
    var begin := ("-----BEGIN " + name + "-----") + (body + end);
    KeptPassesDashFree(before, begin);
    BeginIsHead(name, body + end);
    EndIsHead(endName, after);
    KeptAtBegin(begin, body + end, 16 + |name|);
    KeptPassesDashFree(body, end);
    SkippedAtEnd(end, after, 14 + |endName|);
    KeptOfDashFree(after);
    RedactedIsKept(before + begin);
  }

  lemma KeptAtBegin(s: string, rest: string, n: nat)
    requires Head(s) == Some((Begin, n)) && n <= |s| && s[n..] == rest
    ensures Kept(s) == "[redacted private key]" + Skipped(rest)
  {}

  lemma SkippedAtEnd(s: string, rest: string, n: nat)
    requires Head(s) == Some((End, n)) && n <= |s| && s[n..] == rest
    ensures Skipped(s) == Kept(rest)
  {}

  lemma RedactedIsKept(value: string)
    ensures Redacted(value) == Kept(value)
  {
    RedactionIsKept(value);
  }

  lemma DashesOpenNothing(x: string, i: nat)
    requires DashFree(x) && i <= 5
    ensures Head("-----"[i..] + x).None?
  {
    var s := "-----"[i..] + x;
    assert forall j :: 5 - i <= j < |s| ==> s[j] == x[j - (5 - i)];
    if Head(s).Some? {
      HeadChars(s, Head(s).value.0, Head(s).value.1);
    }
  }

  lemma {:induction false} KeptDashes(x: string, i: nat)
    requires DashFree(x) && i <= 5
    ensures Kept("-----"[i..] + x) == "-----"[i..] + x
    decreases 5 - i
  {
    if i == 5 {
      assert "-----"[5..] + x == x;
      KeptOfDashFree(x);
    } else {
      var s := "-----"[i..] + x;
      DashesOpenNothing(x, i);
      KeptDashes(x, i + 1);
      assert s[1..] == "-----"[i + 1..] + x;
      Uncons(s);
    }
  }

  // The only boundary that an opening can be is its own.
  lemma OpeningIsBegin(name: string, rest: string, kind: Kind, n: nat)
    requires DashFree(name) && HeadIs(("-----BEGIN " + name + "-----") + rest, kind, n)
    ensures IsPrivateKeyLabel(name)
  {
    hide IsPrivateKeyLabel;
    var s := ("-----BEGIN " + name + "-----") + rest;
    HeadChars(s, kind, n);
    assert s[5] == 'B' && s[11 + |name|] == '-';
    assert s[11..11 + |name|] == name;
    assert forall j :: 0 <= j < |name| ==> s[11 + j] == name[j];
    assert n == 16 + |name|;
  }

  lemma ShortOpeningIsNone(name: string, rest: string, i: nat)
    requires 1 <= i < 5
    ensures Head("-----"[i..] + ("BEGIN " + name + "-----") + rest).None?
  {
    hide IsPrivateKeyLabel;
    var s := "-----"[i..] + ("BEGIN " + name + "-----") + rest;
    assert s[5 - i] == 'B';
    if Head(s).Some? {
      StartsWithDashes(s, Head(s).value.0, Head(s).value.1, 5 - i);
    }
  }

  lemma StartsWithDashes(s: string, kind: Kind, n: nat, j: nat)
    requires HeadIs(s, kind, n) && j < 5
    ensures s[j] == '-'
  {
    hide IsPrivateKeyLabel;
    assert s[j] == Prefix(kind)[j];
  }

  lemma KeptStep(s: string)
    requires s != "" && Head(s).None? && Kept(s[1..]) == s[1..]
    ensures Kept(s) == s
  {
    Uncons(s);
  }

  lemma OneDashLess(rest: string, i: nat)
    requires i < 5
    ensures ("-----"[i..] + rest)[1..] == "-----"[i + 1..] + rest
  {}

  lemma {:induction false} KeptShortOpening(name: string, after: string, i: nat)
    requires DashFree(name) && DashFree(after) && 1 <= i <= 5
    ensures var s := "-----"[i..] + (("BEGIN " + name + "-----") + after); Kept(s) == s
    decreases 5 - i
  {
    hide IsPrivateKeyLabel, Head, Kept;
    var rest := ("BEGIN " + name + "-----") + after;
    if i == 5 {
      var words := "BEGIN " + name;
      assert "-----"[5..] + rest == words + ("-----" + after);
      assert DashFree(words);
      KeptPassesDashFree(words, "-----" + after);
      KeptDashes(after, 0);
      assert "-----"[0..] == "-----";
    } else {
      ShortOpeningIsNone(name, after, i);
      Regroup("-----"[i..], "BEGIN " + name + "-----", after);
      KeptShortOpening(name, after, i + 1);
      OneDashLess(rest, i);
      KeptStep("-----"[i..] + rest);
    }
  }

  lemma OpeningTail(name: string, after: string)
    ensures (("-----BEGIN " + name + "-----") + after)[1..] == "-----"[1..] + (("BEGIN " + name + "-----") + after)
  {}

  lemma KeptOtherLabel(name: string, after: string)
    requires DashFree(name) && DashFree(after) && !IsPrivateKeyLabel(name)
    ensures var s := ("-----BEGIN " + name + "-----") + after; Kept(s) == s
  {
    hide IsPrivateKeyLabel, HeadIs, Kept;
    var s := ("-----BEGIN " + name + "-----") + after;
    if Head(s).Some? {
      OpeningIsBegin(name, after, Head(s).value.0, Head(s).value.1);
    }
    KeptShortOpening(name, after, 1);
    OpeningTail(name, after);
    KeptStep(s);
  }

  /**
   An opening boundary hides everything after it exactly when its label names a private key; with any other
   name the text is left alone.
   */
  lemma RedactsOnlyPrivateKeys(before: string, name: string, after: string)
    requires DashFree(before) && DashFree(name) && DashFree(after)
    ensures var value := before + (("-----BEGIN " + name + "-----") + after);
            Redacted(value) == if NamesPrivateKey(name) then before + "[redacted private key]" else value
  {
    hide Kept, Skipped, Redacted, IsPrivateKeyLabel;
    var opening := ("-----BEGIN " + name + "-----") + after;
    LabelsExactly(name);
    KeptPassesDashFree(before, opening);
    RedactedIsKept(before + opening);
    if IsPrivateKeyLabel(name) {
      BeginIsHead(name, after);
      assert opening[16 + |name|..] == after;
      KeptAtBegin(opening, after, 16 + |name|);
      KeptOfDashFree(after);
      assert "[redacted private key]" + "" == "[redacted private key]";
    } else {
      KeptOtherLabel(name, after);
    }
  }
}
