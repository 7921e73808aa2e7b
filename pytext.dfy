/** The few Python `str` operations the handlers use, on `seq<char>`. */
module PyText {

  predicate StartsWith(s: string, prefix: string) {
    |prefix| <= |s| && s[..|prefix|] == prefix
  }

  /** Python's `pat in s` for strings: `pat` occurs in `s` as a contiguous run. */
  predicate Contains(s: string, pat: string)
    decreases |s|
  {
    StartsWith(s, pat) || (s != [] && Contains(s[1..], pat))
  }

  /** Python's `s.replace(pat, repl)`: the non-overlapping occurrences of `pat`,
      found scanning from the left, each replaced by `repl`. */
  function Replace(s: string, pat: string, repl: string): (r: string)
    requires pat != []
    ensures !Contains(s, pat) ==> r == s
    ensures |pat| == |repl| ==> |r| == |s|
    decreases |s|
  {
    if s == [] then []
    else if StartsWith(s, pat) then repl + Replace(s[|pat|..], pat, repl)
    else [s[0]] + Replace(s[1..], pat, repl)
  }

  /** Replacing one character by another maps the string character by character. */
  lemma {:induction false} ReplaceCharAt(s: string, c: char, d: char)
    ensures |Replace(s, [c], [d])| == |s|
    ensures forall k :: 0 <= k < |s| ==> Replace(s, [c], [d])[k] == (if s[k] == c then d else s[k])
    decreases |s|
  {
    if s != [] {
      ReplaceCharAt(s[1..], c, d);
      var r := Replace(s, [c], [d]);
      var t := Replace(s[1..], [c], [d]);
      if s[0] == c {
        assert StartsWith(s, [c]);
        assert r == [d] + t;
      } else {
        assert !StartsWith(s, [c]);
        assert r == [s[0]] + t;
      }
    }
  }

  /** `replace` with a pattern absent from the input is the identity, and a
      leading occurrence is replaced while the rest is scanned on. */
  lemma ReplaceLeading(pat: string, repl: string, rest: string)
    requires pat != []
    ensures Replace(pat + rest, pat, repl) == repl + Replace(rest, pat, repl)
  {
    var s := pat + rest;
    assert s[..|pat|] == pat;
    assert s[|pat|..] == rest;
  }

  /** A string ending with `pat` contains it. */
  lemma {:induction false} ContainsSuffix(s: string, pat: string)
    ensures Contains(s + pat, pat)
    decreases |s|
  {
    if s == [] {
      assert s + pat == pat;
      assert StartsWith(pat, pat);
    } else {
      ContainsSuffix(s[1..], pat);
      assert (s + pat)[1..] == s[1..] + pat;
    }
  }

  /** An occurrence in a tail is an occurrence in the whole string. */
  lemma {:induction false} ContainsPrefixed(prefix: string, s: string, pat: string)
    requires Contains(s, pat)
    ensures Contains(prefix + s, pat)
    decreases |prefix|
  {
    if prefix == [] {
      assert prefix + s == s;
    } else {
      ContainsPrefixed(prefix[1..], s, pat);
      assert (prefix + s)[1..] == prefix[1..] + s;
    }
  }

  /** A leading character that cannot start `pat` adds no occurrence. */
  lemma ContainsCons(c: char, s: string, pat: string)
    requires pat != [] && c != pat[0]
    ensures Contains([c] + s, pat) <==> Contains(s, pat)
  {
    assert ([c] + s)[1..] == s;
    assert !StartsWith([c] + s, pat) by {
      if |pat| <= |[c] + s| {
        assert ([c] + s)[..|pat|][0] == c;
      }
    }
  }

  /** ASCII lower-casing of one character (Python's `lower` restricted to ASCII). */
  function LowerChar(ch: char): char {
    if 'A' <= ch <= 'Z' then (ch as int + 32) as char else ch
  }

  function Lower(s: string): string {
    seq(|s|, k requires 0 <= k < |s| => LowerChar(s[k]))
  }
}
