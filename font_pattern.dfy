/**
 The content test that decides whether an SVG file is an icon font: the
 regular expression `<font[^>]*>(.|\r?\n)*<\/font>` searched anywhere in the
 file's text (gemstone-config-webpack.js, line 83), with JavaScript's meaning
 of `.` (any code unit except a line terminator).
 */
module FontPattern {
  import opened JsText

  const FontOpen: string := "<font"
  const FontClose: string := "</font>"

  /** `(.|\r?\n)*` matches the whole of `m`, read alternative by alternative. */
  predicate BodyMatches(m: string)
    decreases |m|
  {
    || m == []
    || (!IsLineTerminator(m[0]) && BodyMatches(m[1..]))
    || (m[0] == '\n' && BodyMatches(m[1..]))
    || (|m| >= 2 && m[0] == '\r' && m[1] == '\n' && BodyMatches(m[2..]))
  }

  /** Independent reading of the body: no U+2028 or U+2029, and every CR is
      immediately followed by an LF. */
  ghost predicate NoBreakingTerminator(m: string) {
    forall t {:trigger m[t]} | 0 <= t < |m| ::
      && m[t] != '\U{2028}' && m[t] != '\U{2029}'
      && (m[t] == '\r' ==> t + 1 < |m| && m[t + 1] == '\n')
  }

  /** `<font[^>]*>` matches `s[i..j+1]`: the five characters `<font`, then
      characters other than `>`, then the `>` at `j`. */
  predicate OpenTagAt(s: string, i: int, j: int) {
    && 0 <= i && i + |FontOpen| <= j < |s|
    && s[i..i + |FontOpen|] == FontOpen
    && s[j] == '>'
    && forall t | i + |FontOpen| <= t < j :: s[t] != '>'
  }

  /** `<\/font>` matches `s[k..k+7]`. */
  predicate CloseTagAt(s: string, k: int) {
    0 <= k && k + |FontClose| <= |s| && s[k..k + |FontClose|] == FontClose
  }

  /** `svg.match(...) !== null`: some substring of `s` matches the pattern. */
  predicate FontElementMatch(s: string) {
    exists i, j, k | 0 <= i < |s| && i <= j < |s| && j < k <= |s| ::
      OpenTagAt(s, i, j) && CloseTagAt(s, k) && BodyMatches(s[j + 1..k])
  }

  /** The regex body accepts exactly the texts without a lone CR and without
      U+2028/U+2029. */
  lemma {:induction false} BodyMatchesIff(m: string)
    ensures BodyMatches(m) <==> NoBreakingTerminator(m)
    decreases |m|
  {
    if m == [] {
    } else if m[0] == '\r' && !(|m| >= 2 && m[1] == '\n') {
      assert !NoBreakingTerminator(m) by {
        assert !(m[0] == '\r' ==> 1 < |m| && m[1] == '\n');
      }
    } else if m[0] == '\U{2028}' || m[0] == '\U{2029}' {
      assert !NoBreakingTerminator(m) by {
        assert !(m[0] != '\U{2028}' && m[0] != '\U{2029}');
      }
    } else {
      var d := if m[0] == '\r' then 2 else 1;
      BodyMatchesIff(m[d..]);
      NoBreakingTerminatorTail(m, d);
    }
  }

  /** Once the first `d` characters are a complete `.`, `\n` or `\r\n`, the
      body condition of `m` is that of `m[d..]`. */
  lemma NoBreakingTerminatorTail(m: string, d: nat)
    requires 1 <= d <= 2 && d <= |m|
    requires m[0] != '\U{2028}' && m[0] != '\U{2029}'
    requires d == 2 <==> m[0] == '\r'
    requires d == 2 ==> m[1] == '\n'
    ensures NoBreakingTerminator(m) <==> NoBreakingTerminator(m[d..])
  {
    if NoBreakingTerminator(m) {
      forall t | 0 <= t < |m[d..]|
        ensures m[d..][t] != '\U{2028}' && m[d..][t] != '\U{2029}'
        ensures m[d..][t] == '\r' ==> t + 1 < |m[d..]| && m[d..][t + 1] == '\n'
      {
        var u := t + d;
        assert m[d..][t] == m[u];
        assert m[u] == '\r' ==> u + 1 < |m| && m[u + 1] == '\n';
        if t + 1 < |m[d..]| { assert m[d..][t + 1] == m[u + 1]; }
      }
    }
    if NoBreakingTerminator(m[d..]) {
      forall t | 0 <= t < |m|
        ensures m[t] != '\U{2028}' && m[t] != '\U{2029}'
        ensures m[t] == '\r' ==> t + 1 < |m| && m[t + 1] == '\n'
      {
        if t >= d {
          var u := t - d;
          assert m[t] == m[d..][u];
          assert m[d..][u] == '\r' ==> u + 1 < |m[d..]| && m[d..][u + 1] == '\n';
          if t + 1 < |m| { assert m[t + 1] == m[d..][u + 1]; }
        }
      }
    }
  }

  /** A well-formed font element anywhere in the text is found: any opening
      tag that starts with `<font` (so `<font-face ...>` too), any body without
      a lone CR or U+2028/U+2029, then `</font>`. */
  lemma FontElementFound(pre: string, attrs: string, body: string, post: string)
    requires forall t | 0 <= t < |attrs| :: attrs[t] != '>'
    requires NoBreakingTerminator(body)
    ensures FontElementMatch(pre + FontOpen + attrs + ">" + body + FontClose + post)
  {
    var s := pre + FontOpen + attrs + ">" + body + FontClose + post;
    var i := |pre|;
    var j := i + |FontOpen| + |attrs|;
    var k := j + 1 + |body|;
    assert s[i..i + |FontOpen|] == FontOpen;
    forall t | i + |FontOpen| <= t < j ensures s[t] != '>' {
      assert s[t] == attrs[t - i - |FontOpen|];
    }
    assert s[j] == '>';
    assert OpenTagAt(s, i, j);
    assert s[k..k + |FontClose|] == FontClose;
    assert CloseTagAt(s, k);
    assert s[j + 1..k] == body;
    BodyMatchesIff(body);
  }

  /** A lone CR, a U+2028 or a U+2029 between the tags defeats the match:
      neither `.` nor `\r?\n` can step over it, although the file visibly
      holds a font element. */
  lemma BreakingTerminatorDefeatsMatch(c: char)
    requires c == '\r' || c == '\U{2028}' || c == '\U{2029}'
    ensures !FontElementMatch("<font>" + [c] + "</font>")
  {
    var s := "<font>" + [c] + "</font>";
    forall i, j, k | 0 <= i < |s| && i <= j < |s| && j < k <= |s| && OpenTagAt(s, i, j) && CloseTagAt(s, k)
      ensures !BodyMatches(s[j + 1..k])
    {
      assert s[i..i + 5][0] == s[i] && s[i..i + 5][1] == s[i + 1];
      assert i == 0;
      assert s[5] == '>';
      assert j == 5;
      assert s[k..k + 7][0] == s[k];
      assert k == 7;
      assert s[j + 1..k] == [c];
    }
  }

  /** The `[^>]*` lets `<font-face/>` stand for the opening tag. */
  lemma FontFaceOpensElement()
    ensures FontElementMatch("<font-face/></font>")
  {
    var s := "<font-face/></font>";
    assert s[0..5] == FontOpen;
    assert OpenTagAt(s, 0, 11);
    assert s[12..19] == FontClose;
    assert CloseTagAt(s, 12);
    assert BodyMatches(s[12..12]);
  }
}
