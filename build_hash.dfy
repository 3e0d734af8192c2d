/**
 The display form of the build hash (gemstone-config-webpack.js, lines
 472-479): the hex digest of the source tree is upper-cased, only its
 characters at even indices are kept, and a `.` is put after every run of
 four `[0-9A-F]` characters that is followed by a character other than a
 line terminator, giving "HHHH.HHHH.HHHH.HHHH" for a 32-character digest.
 The digest itself is an input.
 */
module BuildHash {
  import opened JsText

  /** `toUpperCase` on one character, for the ASCII letters. */
  function UpperChar(c: char): char {
    if 'a' <= c <= 'z' then (c as int - 32) as char else c
  }

  predicate IsHexDigit(c: char) {
    '0' <= c <= '9' || 'a' <= c <= 'f' || 'A' <= c <= 'F'
  }

  /** The character class `[0-9A-F]`. */
  predicate IsUpperHex(c: char) {
    '0' <= c <= '9' || 'A' <= c <= 'F'
  }

  /** `toUpperCase`: a hex digest comes out as `[0-9A-F]` text of the same
      length, and no lower-case ASCII letter is left. */
  function ToUpper(s: string): (r: string)
    ensures |r| == |s|
    ensures forall i | 0 <= i < |s| :: r[i] == UpperChar(s[i])
    ensures forall i | 0 <= i < |s| :: IsHexDigit(s[i]) ==> IsUpperHex(r[i])
    ensures forall i | 0 <= i < |r| :: !('a' <= r[i] <= 'z')
    ensures forall i | 0 <= i < |s| :: !('a' <= s[i] <= 'z') ==> r[i] == s[i]
  {
    seq(|s|, i requires 0 <= i < |s| => UpperChar(s[i]))
  }

  /** `split("").filter((x, i) => i % 2 === 0).join("")`. */
  function EvenIndexed(s: string): (r: string)
    ensures |r| == (|s| + 1) / 2
    ensures forall i | 0 <= i < |r| :: r[i] == s[2 * i]
    decreases |s|
  {
    if |s| == 0 then []
    else if |s| == 1 then [s[0]]
    else [s[0]] + EvenIndexed(s[2..])
  }

  /** `([0-9A-F]{4})(?=.)` matches at the start of `s`. */
  predicate GroupAt(s: string) {
    && |s| >= 5
    && IsUpperHex(s[0]) && IsUpperHex(s[1]) && IsUpperHex(s[2]) && IsUpperHex(s[3])
    && !IsLineTerminator(s[4])
  }

  /** `replace(/([0-9A-F]{4})(?=.)/g, "$1.")`: scanning left to right, a match
      is replaced by itself and a `.` and the scan resumes after its four
      characters; elsewhere the scan moves one character on. */
  function InsertDots(s: string): string
    decreases |s|
  {
    if |s| == 0 then []
    else if GroupAt(s) then s[..4] + "." + InsertDots(s[4..])
    else [s[0]] + InsertDots(s[1..])
  }

  /** The whole chain of lines 477-479. */
  function FormatBuildHash(digest: string): string {
    InsertDots(EvenIndexed(ToUpper(digest)))
  }

  function RemoveDots(s: string): (r: string)
    ensures '.' !in r
    ensures |r| <= |s|
    decreases |s|
  {
    if |s| == 0 then []
    else if s[0] == '.' then RemoveDots(s[1..])
    else [s[0]] + RemoveDots(s[1..])
  }

  lemma {:induction false} RemoveDotsAppend(a: string, b: string)
    ensures RemoveDots(a + b) == RemoveDots(a) + RemoveDots(b)
    decreases |a|
  {
    if |a| == 0 {
      assert a + b == b;
    } else {
      assert (a + b)[1..] == a[1..] + b;
      RemoveDotsAppend(a[1..], b);
    }
  }

  lemma {:induction false} RemoveDotsNoDot(s: string)
    requires '.' !in s
    ensures RemoveDots(s) == s
    decreases |s|
  {
    if |s| > 0 {
      RemoveDotsNoDot(s[1..]);
    }
  }

  /** The replacement only inserts dots. */
  lemma {:induction false} InsertDotsOnlyAddsDots(s: string)
    ensures RemoveDots(InsertDots(s)) == RemoveDots(s)
    decreases |s|
  {
    if |s| == 0 {
    } else if GroupAt(s) {
      var head, rest := s[..4], InsertDots(s[4..]);
      assert InsertDots(s) == head + "." + rest;
      InsertDotsOnlyAddsDots(s[4..]);
      RemoveDotsAppend(head + ".", rest);
      RemoveDotsAppend(head, ".");
      assert RemoveDots(".") == [];
      assert s == head + s[4..];
      RemoveDotsAppend(head, s[4..]);
    } else {
      var rest := InsertDots(s[1..]);
      assert InsertDots(s) == [s[0]] + rest;
      InsertDotsOnlyAddsDots(s[1..]);
      RemoveDotsAppend([s[0]], rest);
      assert s == [s[0]] + s[1..];
      RemoveDotsAppend([s[0]], s[1..]);
    }
  }

  /** Every inserted dot is followed by a character, so the last character is
      kept. */
  lemma {:induction false} InsertDotsKeepsLast(s: string)
    requires |s| > 0
    ensures |InsertDots(s)| > 0 && InsertDots(s)[|InsertDots(s)| - 1] == s[|s| - 1]
    decreases |s|
  {
    if GroupAt(s) {
      InsertDotsKeepsLast(s[4..]);
    } else if |s| > 1 {
      InsertDotsKeepsLast(s[1..]);
    }
  }

  /** Four characters or fewer are left as they are. */
  lemma {:induction false} InsertDotsShort(s: string)
    requires |s| <= 4
    ensures InsertDots(s) == s
    decreases |s|
  {
    if |s| > 0 {
      InsertDotsShort(s[1..]);
    }
  }

  /** On a string of `[0-9A-F]` the dots fall at every fifth position of the
      result and the other positions hold the input in order. */
  lemma {:induction false} InsertDotsOnHex(s: string)
    requires |s| > 0
    requires forall t | 0 <= t < |s| :: IsUpperHex(s[t])
    ensures |InsertDots(s)| == |s| + (|s| - 1) / 4
    ensures forall i | 0 <= i < |InsertDots(s)| ::
      InsertDots(s)[i] == if i % 5 == 4 then '.' else s[i - i / 5]
    decreases |s|
  {
    var r := InsertDots(s);
    if |s| <= 4 {
      InsertDotsShort(s);
    } else {
      assert GroupAt(s);
      var rest := InsertDots(s[4..]);
      InsertDotsOnHex(s[4..]);
      assert r == s[..4] + "." + rest;
      forall i | 0 <= i < |r|
        ensures r[i] == if i % 5 == 4 then '.' else s[i - i / 5]
      {
        if i >= 5 {
          assert r[i] == rest[i - 5];
          assert (i - 5) % 5 == i % 5 && (i - 5) / 5 == i / 5 - 1;
        }
      }
    }
  }

  /** A 32-character hex digest gives "HHHH.HHHH.HHHH.HHHH": 19 characters,
      dots at 4, 9 and 14, `[0-9A-F]` elsewhere. */
  lemma DigestFormat(digest: string)
    requires |digest| == 32
    requires forall t | 0 <= t < |digest| :: IsHexDigit(digest[t])
    ensures |FormatBuildHash(digest)| == 19
    ensures forall i | 0 <= i < 19 ::
      if i == 4 || i == 9 || i == 14 then FormatBuildHash(digest)[i] == '.'
      else IsUpperHex(FormatBuildHash(digest)[i])
  {
    var e := EvenIndexed(ToUpper(digest));
    assert |e| == 16;
    forall t | 0 <= t < |e| ensures IsUpperHex(e[t]) {
      assert e[t] == UpperChar(digest[2 * t]);
    }
    InsertDotsOnHex(e);
  }

  /** Deleting the dots gives the even-indexed characters of the upper-cased
      digest, `ceil(n/2)` of them. */
  lemma FormatWithoutDots(digest: string)
    requires '.' !in digest
    ensures RemoveDots(FormatBuildHash(digest)) == EvenIndexed(ToUpper(digest))
    ensures |RemoveDots(FormatBuildHash(digest))| == (|digest| + 1) / 2
  {
    var e := EvenIndexed(ToUpper(digest));
    forall t | 0 <= t < |e| ensures e[t] != '.' {
      assert e[t] == UpperChar(digest[2 * t]);
    }
    InsertDotsOnlyAddsDots(e);
    RemoveDotsNoDot(e);
  }

  /** The formatted hash never ends with a dot, and has none when at most four
      characters remain after the filter. */
  lemma FormatDotPlacement(digest: string)
    requires '.' !in digest
    ensures |FormatBuildHash(digest)| > 0 ==>
      FormatBuildHash(digest)[|FormatBuildHash(digest)| - 1] != '.'
    ensures |digest| <= 8 ==> '.' !in FormatBuildHash(digest)
  {
    var e := EvenIndexed(ToUpper(digest));
    forall t | 0 <= t < |e| ensures e[t] != '.' {
      assert e[t] == UpperChar(digest[2 * t]);
    }
    if |e| > 0 {
      InsertDotsKeepsLast(e);
    } else {
      assert InsertDots(e) == [];
    }
    if |digest| <= 8 {
      InsertDotsShort(e);
    }
  }
}
