/**
 File-name helpers shared by the picture viewer and the music player:
 the case-insensitive suffix test both directory scans apply, and the
 "<base>/<name>" path they store.
 */
module FileNames {

  /** `tolower` in the C locale: only 'A'..'Z' change. */
  function AsciiLower(c: char): (l: char)
    ensures 'A' <= c <= 'Z' ==> l as int == c as int + 32
    ensures !('A' <= c <= 'Z') ==> l == c
  {
    if 'A' <= c <= 'Z' then (c as int + 32) as char else c
  }

  /** `strcasecmp(a, b) == 0`. */
  predicate EqualsIgnoreCase(a: string, b: string) {
    |a| == |b| && forall i :: 0 <= i < |a| ==> AsciiLower(a[i]) == AsciiLower(b[i])
  }

  /** The scan's test: the name is longer than the suffix and its last
      characters equal the suffix, ignoring case. A name that is only the
      suffix is rejected. */
  predicate HasSuffix(name: string, suffix: string) {
    |name| > |suffix| && EqualsIgnoreCase(name[|name| - |suffix|..], suffix)
  }

  lemma SuffixExamples()
    ensures HasSuffix("cat.BMP", ".bmp")
    ensures !HasSuffix(".bmp", ".bmp")
    ensures !HasSuffix("cat.bmq", ".bmp")
  {
    assert AsciiLower('q') != AsciiLower('p');
    assert "cat.bmq"[7 - 4..][3] == 'q';
  }

  /** The entries of `names` that pass the suffix test, in order. */
  function Matching(names: seq<string>, suffix: string): (m: seq<string>)
    ensures |m| <= |names|
    ensures forall i :: 0 <= i < |m| ==> |m[i]| > |suffix|
  {
    if |names| == 0 then []
    else
      var rest := Matching(names[..|names| - 1], suffix);
      var last := names[|names| - 1];
      if HasSuffix(last, suffix) then rest + [last] else rest
  }

  /** A name is accepted exactly when it is an entry and passes the test. */
  lemma {:induction false} MatchingMembers(names: seq<string>, suffix: string)
    ensures forall n :: n in Matching(names, suffix) <==> n in names && HasSuffix(n, suffix)
    ensures forall i :: 0 <= i < |Matching(names, suffix)| ==> HasSuffix(Matching(names, suffix)[i], suffix)
  {
    if |names| > 0 {
      var init := names[..|names| - 1];
      assert names == init + [names[|names| - 1]];
      MatchingMembers(init, suffix);
    }
  }

  /** Scanning one more entry extends the accepted names of the prefix by
      that entry exactly when it passes the suffix test. */
  lemma MatchingStep(entries: seq<string>, n: nat, suffix: string)
    requires n < |entries|
    ensures Matching(entries[..n + 1], suffix)
      == Matching(entries[..n], suffix) + (if HasSuffix(entries[n], suffix) then [entries[n]] else [])
  {
    var s := entries[..n + 1];
    assert s[..|s| - 1] == entries[..n] && s[|s| - 1] == entries[n];
  }

  /** The accepted names of a prefix are a prefix of the accepted names. */
  lemma {:induction false} MatchingPrefixOf(entries: seq<string>, n: nat, suffix: string)
    requires n <= |entries|
    ensures Matching(entries[..n], suffix) <= Matching(entries, suffix)
  {
    if n < |entries| {
      var init := entries[..|entries| - 1];
      assert entries == init + [entries[|entries| - 1]];
      assert entries[..n] == init[..n];
      MatchingPrefixOf(init, n, suffix);
    } else {
      assert entries[..n] == entries;
    }
  }

  /** `snprintf(buf, strlen(base) + strlen(name) + 2, "%s/%s", base, name)`:
      the buffer holds the whole path and its NUL exactly, so nothing is
      cut off. */
  function JoinPath(base: string, name: string): (p: string)
    ensures |p| + 1 == |base| + |name| + 2
    ensures p[..|base|] == base && p[|base|] == '/' && p[|base| + 1..] == name
  {
    base + "/" + name
  }
}
