/** Character and string operations used by the column-label, token and path steps. */
module Strings {

  /** `str.lower()` on one character, restricted to ASCII: 'A'..'Z' become 'a'..'z'. */
  function LowerChar(c: char): char {
    if 'A' <= c <= 'Z' then (c as int + 32) as char else c
  }

  predicate IsUpper(c: char) {
    'A' <= c <= 'Z'
  }

  /** `s.lower()`, ASCII only. */
  function Lower(s: string): string {
    seq(|s|, i requires 0 <= i < |s| => LowerChar(s[i]))
  }

  /** `s.replace(' ', '_')`. */
  function Underscore(s: string): string {
    seq(|s|, i requires 0 <= i < |s| => if s[i] == ' ' then '_' else s[i])
  }

  /** `s.split(sep)` for a one-character separator: every separator ends a piece, so a string
      with n separators gives n + 1 pieces, some of them possibly empty. */
  function Split(s: string, sep: char): (pieces: seq<string>)
    ensures |pieces| >= 1
    decreases |s|
  {
    if |s| == 0 then [""]
    else
      var rest := Split(s[1..], sep);
      if s[0] == sep then [""] + rest else [[s[0]] + rest[0]] + rest[1..]
  }

  /** `sep.join(pieces)`, the inverse of Split. */
  function Join(pieces: seq<string>, sep: char): string
    decreases |pieces|
  {
    if |pieces| == 0 then ""
    else if |pieces| == 1 then pieces[0]
    else pieces[0] + [sep] + Join(pieces[1..], sep)
  }

  /** Splitting loses nothing: joining the pieces back gives the string, and no piece holds the
      separator. */
  lemma {:induction false} JoinSplit(s: string, sep: char)
    ensures Join(Split(s, sep), sep) == s
    ensures forall k :: 0 <= k < |Split(s, sep)| ==> sep !in Split(s, sep)[k]
    decreases |s|
  {
    if |s| > 0 {
      var rest := Split(s[1..], sep);
      JoinSplit(s[1..], sep);
      if s[0] == sep {
        assert Split(s, sep) == [""] + rest;
        assert Join(Split(s, sep), sep) == "" + [sep] + Join(rest, sep);
        assert [s[0]] + s[1..] == s;
      } else if |rest| == 1 {
        assert Split(s, sep) == [[s[0]] + rest[0]];
        assert [s[0]] + s[1..] == s;
      } else {
        var pieces := Split(s, sep);
        assert pieces == [[s[0]] + rest[0]] + rest[1..];
        assert pieces[1..] == rest[1..];
        assert Join(rest, sep) == rest[0] + [sep] + Join(rest[1..], sep);
        assert Join(pieces, sep) == [s[0]] + (rest[0] + [sep] + Join(rest[1..], sep));
        assert [s[0]] + s[1..] == s;
        forall k | 0 <= k < |pieces| ensures sep !in pieces[k] {
          if k > 0 {
            assert pieces[k] == rest[k];
          }
        }
      }
    }
  }

  /** A string splits into more than one piece exactly when it holds the separator. */
  lemma {:induction false} SplitSingle(s: string, sep: char)
    ensures |Split(s, sep)| == 1 <==> sep !in s
    ensures sep !in s ==> Split(s, sep) == [s]
    decreases |s|
  {
    if |s| > 0 {
      SplitSingle(s[1..], sep);
      assert s == [s[0]] + s[1..];
      assert sep in s <==> s[0] == sep || sep in s[1..];
    }
  }

  /** A piece free of the separator, then the separator, splits off as the first piece. */
  lemma {:induction false} SplitConcat(u: string, v: string, sep: char)
    requires sep !in u
    ensures Split(u + [sep] + v, sep) == [u] + Split(v, sep)
    decreases |u|
  {
    var s := u + [sep] + v;
    if |u| == 0 {
      assert s[0] == sep && s[1..] == v;
    } else {
      assert s[1..] == u[1..] + [sep] + v;
      SplitConcat(u[1..], v, sep);
      assert [u[0]] + u[1..] == u;
    }
  }

  /** `pat in s`: some window of s equals pat. */
  predicate Occurs(pat: string, s: string)
    decreases |s|
  {
    |pat| <= |s| && (s[..|pat|] == pat || (|s| > 0 && Occurs(pat, s[1..])))
  }

  /** `s.replace(pat, rep)`: scans left to right and replaces every non-overlapping occurrence. */
  function ReplaceAll(s: string, pat: string, rep: string): string
    requires |pat| > 0
    decreases |s|
  {
    if |s| < |pat| then s
    else if s[..|pat|] == pat then rep + ReplaceAll(s[|pat|..], pat, rep)
    else [s[0]] + ReplaceAll(s[1..], pat, rep)
  }

  /** A string without the pattern is returned unchanged. */
  lemma {:induction false} ReplaceAllAbsent(s: string, pat: string, rep: string)
    requires |pat| > 0
    requires !Occurs(pat, s)
    ensures ReplaceAll(s, pat, rep) == s
    decreases |s|
  {
    if |s| >= |pat| {
      ReplaceAllAbsent(s[1..], pat, rep);
      assert [s[0]] + s[1..] == s;
    }
  }

  /** With a longer replacement every replacement lengthens the string, so a string holding the
      pattern is always changed. */
  lemma {:induction false} ReplaceAllLength(s: string, pat: string, rep: string)
    requires |pat| > 0 && |rep| > |pat|
    ensures |ReplaceAll(s, pat, rep)| >= |s|
    ensures Occurs(pat, s) ==> |ReplaceAll(s, pat, rep)| > |s|
    decreases |s|
  {
    if |s| >= |pat| {
      if s[..|pat|] == pat {
        ReplaceAllLength(s[|pat|..], pat, rep);
      } else {
        ReplaceAllLength(s[1..], pat, rep);
      }
    }
  }

  /** A prefix of the result that avoids the first character of the replacement was copied
      unchanged from the input. */
  lemma {:induction false} PrefixSurvivesReplace(w: string, x: string, pat: string, rep: string)
    requires |pat| > 0 && |rep| > 0
    requires rep[0] !in w
    requires |w| <= |ReplaceAll(x, pat, rep)| && ReplaceAll(x, pat, rep)[..|w|] == w
    ensures |w| <= |x| && x[..|w|] == w
    decreases |x|
  {
    if |w| > 0 && |x| >= |pat| {
      var r := ReplaceAll(x, pat, rep);
      assert w[0] == r[0] && w[0] != rep[0];
      assert x[..|pat|] != pat;
      var tail := ReplaceAll(x[1..], pat, rep);
      assert r == [x[0]] + tail;
      assert w[1..] == tail[..|w| - 1];
      PrefixSurvivesReplace(w[1..], x[1..], pat, rep);
      assert x[..|w|] == [x[0]] + x[1..][..|w| - 1];
      assert w == [w[0]] + w[1..];
    }
  }

  /** A leading occurrence is replaced and the scan resumes right after it. */
  lemma ReplaceAllLeading(rest: string, pat: string, rep: string)
    requires |pat| > 0
    ensures ReplaceAll(pat + rest, pat, rep) == rep + ReplaceAll(rest, pat, rep)
  {
    var s := pat + rest;
    assert s[..|pat|] == pat;
    assert s[|pat|..] == rest;
  }

  /** Characters that cannot start the pattern are copied unchanged, and the rest is replaced as
      it would be alone. */
  lemma {:induction false} ReplaceAllKeepsPrefix(u: string, x: string, pat: string, rep: string)
    requires |pat| > 0
    requires pat[0] !in u
    ensures ReplaceAll(u + x, pat, rep) == u + ReplaceAll(x, pat, rep)
    decreases |u|
  {
    if |u| > 0 {
      var ux := u + x;
      assert ux[1..] == u[1..] + x;
      ReplaceAllKeepsPrefix(u[1..], x, pat, rep);
      if |ux| >= |pat| {
        assert ux[..|pat|][0] == u[0];
      }
      assert [u[0]] + u[1..] == u;
    } else {
      assert u + x == x;
    }
  }

  /** Prepending characters that cannot start the pattern creates no occurrence. */
  lemma {:induction false} PrependWithoutStart(u: string, x: string, pat: string)
    requires |pat| > 0
    requires pat[0] !in u
    requires !Occurs(pat, x)
    ensures !Occurs(pat, u + x)
    decreases |u|
  {
    if |u| > 0 {
      PrependWithoutStart(u[1..], x, pat);
      var ux := u + x;
      assert ux[1..] == u[1..] + x;
      assert u[0] != pat[0];
      if |pat| <= |ux| {
        assert ux[..|pat|][0] == u[0];
        assert ux[..|pat|] != pat;
      }
      assert !Occurs(pat, ux[1..]);
    } else {
      assert u + x == x;
    }
  }

  /** When the replacement cannot combine with its neighbourhood into a new occurrence, the result
      holds no occurrence of the pattern at all: every occurrence was replaced. */
  lemma {:induction false} ReplaceAllRemovesAll(s: string, pat: string, rep: string)
    requires |pat| > 0 && |rep| >= |pat|
    requires rep[..|pat|] != pat
    requires rep[0] !in pat[1..]
    requires pat[0] !in rep[1..]
    ensures !Occurs(pat, ReplaceAll(s, pat, rep))
    decreases |s|
  {
    var r := ReplaceAll(s, pat, rep);
    if |s| < |pat| {
      assert r == s;
    } else if s[..|pat|] == pat {
      var tail := ReplaceAll(s[|pat|..], pat, rep);
      ReplaceAllRemovesAll(s[|pat|..], pat, rep);
      assert r == rep + tail;
      PrependWithoutStart(rep[1..], tail, pat);
      assert r[1..] == rep[1..] + tail;
      assert r[..|pat|] == rep[..|pat|];
    } else {
      var tail := ReplaceAll(s[1..], pat, rep);
      ReplaceAllRemovesAll(s[1..], pat, rep);
      assert r == [s[0]] + tail;
      assert r[1..] == tail;
      if |pat| <= |r| && r[..|pat|] == pat {
        assert tail[..|pat| - 1] == pat[1..];
        PrefixSurvivesReplace(pat[1..], s[1..], pat, rep);
        assert false;
      }
    }
  }

  function DigitChar(d: nat): char
    requires d < 10
  {
    "0123456789"[d]
  }

  /** `str(n)` for a non-negative integer: its decimal digits, most significant first. */
  function NatString(n: nat): string
    decreases n
  {
    if n < 10 then [DigitChar(n)] else NatString(n / 10) + [DigitChar(n % 10)]
  }

  /** `str(n)` for an integer. */
  function IntString(n: int): string {
    if n < 0 then "-" + NatString(-n) else NatString(n)
  }

  lemma {:induction false} NatStringDigits(n: nat)
    ensures |NatString(n)| > 0
    ensures forall k :: 0 <= k < |NatString(n)| ==> '0' <= NatString(n)[k] <= '9'
    decreases n
  {
    if n >= 10 {
      NatStringDigits(n / 10);
    }
  }

  /** The text of a number is never empty and never holds a comma. */
  lemma IntStringHasNoComma(n: int)
    ensures |IntString(n)| > 0
    ensures ',' !in IntString(n)
  {
    var m: nat := if n < 0 then -n else n;
    NatStringDigits(m);
    if n < 0 {
      assert IntString(n) == "-" + NatString(m);
      forall k | 0 <= k < |IntString(n)| ensures IntString(n)[k] != ',' {
        if k > 0 {
          assert IntString(n)[k] == NatString(m)[k - 1];
        }
      }
    }
  }
}
