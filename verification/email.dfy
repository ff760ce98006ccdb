/** The e-mail check shared by the sign-up and login forms: the regular
    expression `^[^\s@]+@[^\s@]+\.[^\s@]+$` (src/pages/Signup.js:15-17 and
    src/pages/Login.js:12-14), given here twice: once as the shape the
    expression describes and once as a direct check, proved to agree. */
module Email {
  import opened Text

  /** A run of the class `[^\s@]+`: non-empty, no white space, no `@`. */
  predicate Segment(s: string) {
    |s| > 0 && forall k :: 0 <= k < |s| ==> !IsSpace(s[k]) && s[k] != '@'
  }

  /** The language of the regular expression: `e` splits as
      local `@` host `.` suffix, each part a `Segment`. Because the host may
      itself contain dots, any dot after the `@` can serve as the separator. */
  ghost predicate MatchesPattern(e: string) {
    exists i, j ::
      0 < i && i + 1 < j && j + 1 < |e| && e[i] == '@' && e[j] == '.'
      && Segment(e[..i]) && Segment(e[i + 1..j]) && Segment(e[j + 1..])
  }

  /** The domain part has a dot that is neither its first nor its last character. */
  predicate HasInnerDot(d: string) {
    exists k | 0 < k < |d| - 1 :: d[k] == '.'
  }

  /** `validateEmail`: no white space anywhere, exactly one `@`, something
      before it, and an inner dot after it. */
  predicate IsValid(e: string) {
    && (forall k | 0 <= k < |e| :: !IsSpace(e[k]))
    && exists i | 0 < i < |e| ::
         e[i] == '@' && '@' !in e[..i] && '@' !in e[i + 1..] && HasInnerDot(e[i + 1..])
  }

  /** A slice whose characters avoid white space and `@` is a `Segment`. */
  lemma SegmentOfSlice(e: string, a: int, b: int)
    requires 0 <= a < b <= |e|
    requires forall m :: a <= m < b ==> !IsSpace(e[m]) && e[m] != '@'
    ensures Segment(e[a..b])
  {
    assert forall m :: 0 <= m < b - a ==> e[a..b][m] == e[a + m];
  }

  /** Every string the direct check accepts matches the regular expression. */
  lemma {:induction false} IsValidMatchesPattern(e: string)
    requires IsValid(e)
    ensures MatchesPattern(e)
  {
    var i :| 0 < i < |e| && e[i] == '@' && '@' !in e[..i] && '@' !in e[i + 1..]
           && HasInnerDot(e[i + 1..]);
    var d := e[i + 1..];
    var k :| 0 < k < |d| - 1 && d[k] == '.';
    var j := i + 1 + k;
    forall m | 0 <= m < |e| && m != i
      ensures !IsSpace(e[m]) && e[m] != '@'
    {
      if m < i {
        assert e[m] == e[..i][m];
      } else {
        assert e[m] == d[m - (i + 1)];
      }
    }
    SegmentOfSlice(e, 0, i);
    SegmentOfSlice(e, i + 1, j);
    SegmentOfSlice(e, j + 1, |e|);
    assert e[..i] == e[0..i];
    assert e[j + 1..] == e[j + 1..|e|];
    assert e[j] == d[k];
    assert 0 < i && i + 1 < j && j + 1 < |e| && e[i] == '@' && e[j] == '.'
      && Segment(e[..i]) && Segment(e[i + 1..j]) && Segment(e[j + 1..]);
  }

  /** Every string the regular expression matches passes the direct check. */
  lemma {:induction false} PatternIsValid(e: string)
    requires MatchesPattern(e)
    ensures IsValid(e)
  {
    var i, j :| 0 < i && i + 1 < j && j + 1 < |e| && e[i] == '@' && e[j] == '.'
              && Segment(e[..i]) && Segment(e[i + 1..j]) && Segment(e[j + 1..]);
    forall k | 0 <= k < |e| && k != i
      ensures !IsSpace(e[k]) && e[k] != '@'
    {
      if k < i {
        assert e[k] == e[..i][k];
      } else if k < j {
        assert e[k] == e[i + 1..j][k - (i + 1)];
      } else if j < k {
        assert e[k] == e[j + 1..][k - (j + 1)];
      }
    }
    var d := e[i + 1..];
    assert '@' !in e[..i] by {
      assert forall m :: 0 <= m < i ==> e[..i][m] == e[m];
    }
    assert '@' !in d by {
      assert forall m :: 0 <= m < |d| ==> d[m] == e[m + i + 1];
    }
    assert HasInnerDot(d) by {
      assert d[j - (i + 1)] == '.';
    }
  }

  /** The direct check accepts exactly the strings the regular expression matches. */
  lemma IsValidIffMatchesPattern(e: string)
    ensures IsValid(e) <==> MatchesPattern(e)
  {
    if IsValid(e) {
      IsValidMatchesPattern(e);
    }
    if MatchesPattern(e) {
      PatternIsValid(e);
    }
  }
}
