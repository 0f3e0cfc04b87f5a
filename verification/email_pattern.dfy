/**
 The email check of the entry form: the anchored regular expression
 `^[^\s@]+@[^\s@]+\.[^\s@]+$`. `RegexMatches` is its reading as "there is a
 way to split the text into the three runs and the two literal characters";
 `EmailShape` is a closed form that needs no search, and `RegexIffShape`
 proves the two agree on every string.
 */
module EmailPattern {
  import opened Text

  /** One character of the class `[^\s@]`. */
  predicate Ordinary(c: char) {
    !IsWs(c) && c != '@'
  }

  /** A match of `[^\s@]+`: one or more ordinary characters. */
  predicate OrdinaryRun(t: string) {
    |t| > 0 && forall i :: 0 <= i < |t| ==> Ordinary(t[i])
  }

  /** The pattern matches `s` with the `@` at index `i` and the literal `.`
      at index `j`. */
  predicate SplitMatches(s: string, i: int, j: int) {
    && 0 <= i < j < |s|
    && s[i] == '@'
    && s[j] == '.'
    && OrdinaryRun(s[..i])
    && OrdinaryRun(s[i + 1..j])
    && OrdinaryRun(s[j + 1..])
  }

  /** `emailRegex.test(s)`: the anchors force the match to cover all of `s`,
      so a match is exactly a choice of the two split points. The shortest
      match has five characters, and a match neither starts nor ends with
      `@`. */
  ghost predicate RegexMatches(s: string): (b: bool)
    ensures b ==> 5 <= |s| && s[0] != '@' && s[|s| - 1] != '@'
  {
    exists i, j :: SplitMatches(s, i, j)
  }

  /** Number of occurrences of `c` in `s`. */
  function Occurrences(s: string, c: char): (n: nat)
    ensures n == 0 <==> c !in s
    ensures n <= |s|
  {
    if s == [] then 0
    else (if s[0] == c then 1 else 0) + Occurrences(s[1..], c)
  }

  /** Index of the first `c` in `s`, or `|s|` when there is none. */
  function IndexOf(s: string, c: char): (i: nat)
    ensures i <= |s|
    ensures i < |s| <==> c in s
    ensures i < |s| ==> s[i] == c
    ensures c !in s[..i]
  {
    if s == [] then 0
    else if s[0] == c then 0
    else
      var k := IndexOf(s[1..], c);
      assert s[..k + 1] == [s[0]] + s[1..][..k];
      k + 1
  }

  /** `d` has a `.` that is neither its first nor its last character. */
  predicate HasInnerDot(d: string) {
    exists k :: 0 < k < |d| - 1 && d[k] == '.'
  }

  /** The closed form: no whitespace, exactly one `@`, a non-empty part before
      it, and a part after it holding an inner `.`. Such a text has at least
      five characters and starts with a non-whitespace character. */
  predicate EmailShape(s: string): (b: bool)
    ensures b ==> 5 <= |s| && !IsWs(s[0])
  {
    var at := IndexOf(s, '@');
    && NoWs(s)
    && Occurrences(s, '@') == 1
    && 0 < at < |s|
    && HasInnerDot(s[at + 1..])
  }

  /** Occurrences add up over a concatenation. */
  lemma {:induction false} OccurrencesAppend(a: string, b: string, c: char)
    ensures Occurrences(a + b, c) == Occurrences(a, c) + Occurrences(b, c)
  {
    if a == [] {
      assert a + b == b;
    } else {
      assert (a + b)[0] == a[0];
      assert (a + b)[1..] == a[1..] + b;
      OccurrencesAppend(a[1..], b, c);
    }
  }

  /** With `c` at index `i`, `c` occurs exactly once in `s` precisely when it
      occurs neither before nor after `i`. */
  lemma OccursOnceAt(s: string, c: char, i: int)
    requires 0 <= i < |s| && s[i] == c
    ensures Occurrences(s, c) == 1 <==> c !in s[..i] && c !in s[i + 1..]
  {
    assert s == s[..i] + ([s[i]] + s[i + 1..]);
    OccurrencesAppend(s[..i], [s[i]] + s[i + 1..], c);
    OccurrencesAppend([s[i]], s[i + 1..], c);
    assert Occurrences([s[i]], c) == 1 by {
      assert [s[i]][1..] == [];
    }
  }

  /** The first occurrence of `c` is the one at `i` when `c` does not occur
      before `i`. */
  lemma IndexOfIs(s: string, c: char, i: int)
    requires 0 <= i < |s| && s[i] == c && c !in s[..i]
    ensures IndexOf(s, c) == i
  {
  }

  /** A match fixes the shape: the split point `i` is the only `@`. */
  lemma MatchHasShape(s: string, i: int, j: int)
    requires SplitMatches(s, i, j)
    ensures EmailShape(s)
  {
    assert s[..i][..] == s[..i];
    assert '@' !in s[..i] by {
      forall k | 0 <= k < i ensures s[..i][k] != '@' {
        assert Ordinary(s[..i][k]);
      }
    }
    var d := s[i + 1..];
    assert '@' !in d by {
      forall k | 0 <= k < |d| ensures d[k] != '@' {
        var m := i + 1 + k;
        if m < j {
          assert d[k] == s[i + 1..j][m - (i + 1)];
        } else if j < m {
          assert d[k] == s[j + 1..][m - (j + 1)];
        }
      }
    }
    OccursOnceAt(s, '@', i);
    IndexOfIs(s, '@', i);
    forall k | 0 <= k < |s| ensures !IsWs(s[k]) {
      if k < i {
        assert s[k] == s[..i][k];
      } else if i < k < j {
        assert s[k] == s[i + 1..j][k - (i + 1)];
      } else if j < k {
        assert s[k] == s[j + 1..][k - (j + 1)];
      }
    }
    assert d[j - (i + 1)] == '.';
  }

  /** The shape yields a match: split at the `@` and at the inner `.`. */
  lemma ShapeHasMatch(s: string) returns (i: int, j: int)
    requires EmailShape(s)
    ensures SplitMatches(s, i, j)
  {
    i := IndexOf(s, '@');
    var d := s[i + 1..];
    var k :| 0 < k < |d| - 1 && d[k] == '.';
    j := i + 1 + k;
    OccursOnceAt(s, '@', i);
    assert s[j] == '.';
    forall m | 0 <= m < |s| && m != i ensures Ordinary(s[m]) {
      if m < i {
        assert s[..i][m] == s[m];
      } else {
        assert s[i + 1..][m - (i + 1)] == s[m];
      }
    }
    assert OrdinaryRun(s[..i]);
    var mid, tld := s[i + 1..j], s[j + 1..];
    assert OrdinaryRun(mid) by {
      forall m | 0 <= m < |mid| ensures Ordinary(mid[m]) {
        assert mid[m] == s[i + 1 + m];
      }
    }
    assert OrdinaryRun(tld) by {
      forall m | 0 <= m < |tld| ensures Ordinary(tld[m]) {
        assert tld[m] == s[j + 1 + m];
      }
    }
  }

  /** The regular expression accepts exactly the strings of the closed form. */
  lemma RegexIffShape(s: string)
    ensures RegexMatches(s) <==> EmailShape(s)
  {
    if RegexMatches(s) {
      var i, j :| SplitMatches(s, i, j);
      MatchHasShape(s, i, j);
    }
    if EmailShape(s) {
      var i, j := ShapeHasMatch(s);
    }
  }

  /** `emailRegex.test(email)`, computed through the closed form. */
  function EmailRegexTest(s: string): (r: bool)
    ensures r <==> RegexMatches(s)
  {
    RegexIffShape(s);
    EmailShape(s)
  }

  /** Any string the regular expression accepts is non-blank and is its own
      trim: the email never needs the whitespace test once it matches. */
  lemma MatchIsNotBlank(s: string)
    requires RegexMatches(s)
    ensures !IsBlank(s)
    ensures Trim(s) == s
  {
    RegexIffShape(s);
  }
}
