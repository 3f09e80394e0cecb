/** Optional values, used instead of `undefined`. */
module Options {
  datatype Option<+T> = None | Some(value: T)
}

/** Facts about sequences that hold by extensionality. */
module Sequences {
  lemma Regroup<T>(a: seq<T>, b: seq<T>, c: seq<T>)
    ensures (a + b) + c == a + (b + c)
  {}

  lemma Uncons<T>(s: seq<T>)
    requires s != []
    ensures s == [s[0]] + s[1..]
  {}

  lemma SliceOfSuffix<T>(s: seq<T>, start: nat, i: nat, j: nat)
    requires i <= j && start + j <= |s|
    ensures s[start..][i..j] == s[start + i..start + j]
  {}

  lemma Enclosed<T>(open: T, inner: seq<T>, close: T, after: seq<T>)
    ensures ([open] + inner + [close]) + after == [open] + (inner + ([close] + after))
  {}
}

/** Character classes of regular expressions. */
module Characters {
  // The white space of the regular expression \s.
  predicate IsSpace(c: char) {
    || '\t' <= c <= '\r' || c == ' ' || c == '\U{A0}' || c == '\U{1680}' || '\U{2000}' <= c <= '\U{200A}'
    || c == '\U{2028}' || c == '\U{2029}' || c == '\U{202F}' || c == '\U{205F}' || c == '\U{3000}' || c == '\U{FEFF}'
  }

  // The dot matches everything but line terminators.
  predicate IsDot(c: char) {
    c != '\n' && c != '\r' && c != '\U{2028}' && c != '\U{2029}'
  }
}

/** Key and value pairs, as Object.entries lists them and Object.fromEntries collects them. */
module Entries {
  type Entry = (string, string)

  // Object.fromEntries: the last value given for a key counts.
  function FromEntries(entries: seq<Entry>): map<string, string> {
    if entries == [] then map[]
    else FromEntries(entries[..|entries| - 1])[entries[|entries| - 1].0 := entries[|entries| - 1].1]
  }

  ghost predicate Distinct(entries: seq<Entry>) {
    forall i, j :: 0 <= i < j < |entries| ==> entries[i].0 != entries[j].0
  }

  // Object.entries: every pair of the map once, in some order.
  ghost predicate Lists(entries: seq<Entry>, m: map<string, string>) {
    && Distinct(entries)
    && forall e: Entry :: e in entries <==> e.0 in m && m[e.0] == e.1
  }

  lemma {:induction false} FromEntriesHolds(entries: seq<Entry>)
    requires Distinct(entries)
    ensures forall e: Entry :: e in entries <==> e.0 in FromEntries(entries) && FromEntries(entries)[e.0] == e.1
  {
    if entries != [] {
      var rest, last := entries[..|entries| - 1], entries[|entries| - 1];
      FromEntriesHolds(rest);
      assert entries == rest + [last];
      forall e | e in rest ensures e.0 != last.0 {
        var i :| 0 <= i < |rest| && rest[i] == e;
        assert entries[i] == e;
      }
      forall e: Entry ensures e in entries <==> e.0 in FromEntries(entries) && FromEntries(entries)[e.0] == e.1 {
        assert e in entries <==> e in rest || e == last;
      }
    }
  }

  /** Collecting the entries of a map gives the map again. */
  lemma FromEntriesInverts(entries: seq<Entry>, m: map<string, string>)
    requires Lists(entries, m)
    ensures FromEntries(entries) == m
  {
    var found := FromEntries(entries);
    FromEntriesHolds(entries);
    forall k | k in m ensures k in found && found[k] == m[k] {
      var e := (k, m[k]);
      assert e in entries;
    }
    forall k | k in found ensures k in m {
      var e := (k, found[k]);
      assert e in entries;
    }
  }
}
