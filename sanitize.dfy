/**
 * The error sanitizer: every case-insensitive match of the pattern
 * `api[_-]?key|token|secret|auth|bearer` is replaced by `[REDACTED]`,
 * scanning left to right as a global regular-expression replace does.
 */
module Sanitizer {

  const Marker: string := "[REDACTED]"

  /** ASCII lower-casing; the pattern's case-insensitivity only ever folds ASCII letters. */
  function Lower(c: char): char {
    if 'A' <= c <= 'Z' then (c as int + 32) as char else c
  }

  predicate StartsWithCI(s: string, p: string) {
    |p| <= |s| && forall i :: 0 <= i < |p| ==> Lower(s[i]) == p[i]
  }

  /** Length of the match of the pattern that begins at the first character of `s`, 0 if none. */
  function MatchLength(s: string): (n: nat)
    ensures n <= |s|
    ensures n == 0 || 4 <= n <= 7
  {
    if StartsWithCI(s, "api_key") || StartsWithCI(s, "api-key") then 7
    else if StartsWithCI(s, "apikey") then 6
    else if StartsWithCI(s, "token") then 5
    else if StartsWithCI(s, "secret") then 6
    else if StartsWithCI(s, "auth") then 4
    else if StartsWithCI(s, "bearer") then 6
    else 0
  }

  /** No position of `s` starts a match. */
  ghost predicate NoMatch(s: string) {
    forall i :: 0 <= i < |s| ==> MatchLength(s[i..]) == 0
  }

  /** sanitizeErrorMessage: global, left-to-right, non-overlapping replacement. */
  function Sanitize(s: string): (r: string)
    ensures |r| >= |s|
  {
    if s == [] then []
    else
      var n := MatchLength(s);
      if n > 0 then Marker + Sanitize(s[n..])
      else [s[0]] + Sanitize(s[1..])
  }

  /** Every character a match covers is a letter, '_' or '-'; in particular never '['. */
  lemma MatchHasNoBracket(s: string, i: nat)
    requires i < MatchLength(s)
    ensures s[i] != '['
  {
    assert Lower('[') == '[';
  }

  /** A match at the front of `s` is also one at the front of any `t` that agrees on the characters it covers. */
  lemma MatchTransfers(s: string, t: string)
    requires MatchLength(s) > 0
    requires |t| >= MatchLength(s)
    requires forall i :: 0 <= i < MatchLength(s) ==> t[i] == s[i]
    ensures MatchLength(t) > 0
  {
    if StartsWithCI(s, "api_key") {
      assert StartsWithCI(t, "api_key");
    } else if StartsWithCI(s, "api-key") {
      assert StartsWithCI(t, "api-key");
    } else if StartsWithCI(s, "apikey") {
      assert StartsWithCI(t, "apikey");
    } else if StartsWithCI(s, "token") {
      assert StartsWithCI(t, "token");
    } else if StartsWithCI(s, "secret") {
      assert StartsWithCI(t, "secret");
    } else if StartsWithCI(s, "auth") {
      assert StartsWithCI(t, "auth");
    } else {
      assert StartsWithCI(t, "bearer");
    }
  }

  /** No match begins anywhere inside the redaction marker, whatever follows it. */
  lemma MarkerHasNoMatch(rest: string, j: nat)
    requires j < |Marker|
    ensures MatchLength((Marker + rest)[j..]) == 0
  {
    var s := (Marker + rest)[j..];
    assert s[0] == Marker[j];
    if j == 4 || j == 6 {
      assert s[1] == Marker[j + 1];
    }
  }

  /**
   * If the first m characters of Sanitize(t) hold no '[', the scan met no
   * match there, so those characters are t's own.
   */
  lemma {:induction false} CleanPrefixIsOriginal(t: string, m: nat)
    requires m <= |Sanitize(t)|
    requires forall i :: 0 <= i < m ==> Sanitize(t)[i] != '['
    ensures m <= |t| && t[..m] == Sanitize(t)[..m]
  {
    if m > 0 && t != [] {
      assert Sanitize(t)[0] != '[';
      assert MatchLength(t) == 0;
      var r := Sanitize(t[1..]);
      assert Sanitize(t) == [t[0]] + r;
      forall i | 0 <= i < m - 1 ensures r[i] != '[' {
        assert r[i] == Sanitize(t)[i + 1];
      }
      CleanPrefixIsOriginal(t[1..], m - 1);
      assert t[..m] == [t[0]] + t[1..][..m - 1];
    }
  }

  lemma NoMatchAfterMarker(r: string)
    requires NoMatch(r)
    ensures NoMatch(Marker + r)
  {
    var out := Marker + r;
    forall i | 0 <= i < |out| ensures MatchLength(out[i..]) == 0 {
      if i < |Marker| {
        MarkerHasNoMatch(r, i);
      } else {
        assert out[i..] == r[i - |Marker|..];
      }
    }
  }

  /** A kept character cannot start a match together with the sanitized rest. */
  lemma NoMatchAfterKept(s: string)
    requires s != [] && MatchLength(s) == 0
    requires NoMatch(Sanitize(s[1..]))
    ensures NoMatch([s[0]] + Sanitize(s[1..]))
  {
    var r := Sanitize(s[1..]);
    var out := [s[0]] + r;
    var m := MatchLength(out);
    if m > 0 {
      forall k | 0 <= k < m - 1 ensures r[k] != '[' {
        MatchHasNoBracket(out, k + 1);
      }
      CleanPrefixIsOriginal(s[1..], m - 1);
      forall k | 0 <= k < m ensures s[k] == out[k] {
        if k > 0 {
          assert s[1..][..m - 1][k - 1] == r[..m - 1][k - 1];
        }
      }
      MatchTransfers(out, s);
      assert false;
    }
    forall i | 0 <= i < |out| ensures MatchLength(out[i..]) == 0 {
      if i == 0 {
        assert out[0..] == out;
      } else {
        assert out[i..] == r[i - 1..];
      }
    }
  }

  /** After sanitizing, no credential-like word is left anywhere in the message. */
  lemma {:induction false} SanitizeLeavesNoMatch(s: string)
    ensures NoMatch(Sanitize(s))
  {
    if s != [] {
      var n := MatchLength(s);
      if n > 0 {
        SanitizeLeavesNoMatch(s[n..]);
        NoMatchAfterMarker(Sanitize(s[n..]));
      } else {
        SanitizeLeavesNoMatch(s[1..]);
        NoMatchAfterKept(s);
      }
    }
  }

  /** Text with no credential-like word passes through unchanged. */
  lemma {:induction false} SanitizeKeepsCleanText(s: string)
    requires NoMatch(s)
    ensures Sanitize(s) == s
  {
    if s != [] {
      assert MatchLength(s[0..]) == 0;
      assert s[0..] == s;
      forall i | 0 <= i < |s| - 1 ensures MatchLength(s[1..][i..]) == 0 {
        assert s[1..][i..] == s[i + 1..];
      }
      SanitizeKeepsCleanText(s[1..]);
    }
  }

  /** Any match in the input makes the output strictly longer: the marker is longer than every match. */
  lemma {:induction false} SanitizeGrowsOnMatch(s: string, i: nat)
    requires i < |s| && MatchLength(s[i..]) > 0
    ensures |Sanitize(s)| > |s|
  {
    var n := MatchLength(s);
    if n == 0 {
      assert i != 0 by { assert s[0..] == s; }
      assert s[1..][i - 1..] == s[i..];
      SanitizeGrowsOnMatch(s[1..], i - 1);
    }
  }

  /** The sanitizer changes a message exactly when the message holds a credential-like word. */
  lemma SanitizeUnchangedIff(s: string)
    ensures Sanitize(s) == s <==> NoMatch(s)
  {
    if NoMatch(s) {
      SanitizeKeepsCleanText(s);
    } else {
      var i :| 0 <= i < |s| && MatchLength(s[i..]) != 0;
      SanitizeGrowsOnMatch(s, i);
    }
  }

  /** Sanitizing twice is the same as sanitizing once. */
  lemma SanitizeIdempotent(s: string)
    ensures Sanitize(Sanitize(s)) == Sanitize(s)
  {
    SanitizeLeavesNoMatch(s);
    SanitizeKeepsCleanText(Sanitize(s));
  }
}
