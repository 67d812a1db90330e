/** String helpers. A Go string is a byte sequence; every character these
    functions look for is ASCII, so a sequence of characters serves. */
module Text {

  /** strings.ReplaceAll for a one-character pattern. */
  function ReplaceChar(s: string, c: char, sub: string): string {
    if s == "" then ""
    else (if s[0] == c then sub else [s[0]]) + ReplaceChar(s[1..], c, sub)
  }

  lemma {:induction false} ReplaceCharCons(x: char, s: string, c: char, sub: string)
    ensures ReplaceChar([x] + s, c, sub) == (if x == c then sub else [x]) + ReplaceChar(s, c, sub)
  {
    assert ([x] + s)[1..] == s;
  }

  lemma {:induction false} ReplaceCharConcat(a: string, b: string, c: char, sub: string)
    ensures ReplaceChar(a + b, c, sub) == ReplaceChar(a, c, sub) + ReplaceChar(b, c, sub)
  {
    if a == "" {
      assert a + b == b;
    } else {
      assert (a + b)[1..] == a[1..] + b;
      ReplaceCharConcat(a[1..], b, c, sub);
    }
  }

  /** Replacing one character by one other is a map over the positions. */
  lemma {:induction false} ReplaceCharPointwise(s: string, c: char, d: char)
    ensures |ReplaceChar(s, c, [d])| == |s|
    ensures forall i :: 0 <= i < |s| ==> ReplaceChar(s, c, [d])[i] == if s[i] == c then d else s[i]
  {
    if s != "" {
      ReplaceCharPointwise(s[1..], c, d);
      forall i | 0 < i < |s|
        ensures ReplaceChar(s, c, [d])[i] == if s[i] == c then d else s[i]
      {
        assert s[i] == s[1..][i - 1];
      }
    }
  }

  function UpperChar(c: char): char {
    if 'a' <= c <= 'z' then (c as int - 32) as char else c
  }

  /** strings.ToUpper on ASCII text. */
  function ToUpper(s: string): string {
    if s == "" then "" else [UpperChar(s[0])] + ToUpper(s[1..])
  }

  /** strings.EqualFold on ASCII text. */
  predicate EqualFold(a: string, b: string) {
    ToUpper(a) == ToUpper(b)
  }

  lemma {:induction false} ToUpperPointwise(s: string)
    ensures |ToUpper(s)| == |s|
    ensures forall i :: 0 <= i < |s| ==> ToUpper(s)[i] == UpperChar(s[i])
  {
    if s != "" {
      ToUpperPointwise(s[1..]);
    }
  }

  /** The two cases of one letter: their codes are 32 apart. */
  predicate CasePair(upper: char, lower: char) {
    'A' <= upper <= 'Z' && 'a' <= lower <= 'z' && lower as int == upper as int + 32
  }

  /** Character by character the same, or two cases of one letter. */
  predicate SameButForCase(a: string, b: string) {
    && |a| == |b|
    && forall i :: 0 <= i < |a| ==> a[i] == b[i] || CasePair(a[i], b[i]) || CasePair(b[i], a[i])
  }

  lemma EqualFoldExactly(a: string, b: string)
    ensures EqualFold(a, b) <==> SameButForCase(a, b)
  {
    ToUpperPointwise(a);
    ToUpperPointwise(b);
    if EqualFold(a, b) {
      forall i | 0 <= i < |a| ensures a[i] == b[i] || CasePair(a[i], b[i]) || CasePair(b[i], a[i]) {
        assert UpperChar(a[i]) == ToUpper(a)[i] == ToUpper(b)[i] == UpperChar(b[i]);
      }
    }
    if SameButForCase(a, b) {
      forall i | 0 <= i < |a| ensures ToUpper(a)[i] == ToUpper(b)[i] {
        assert a[i] == b[i] || CasePair(a[i], b[i]) || CasePair(b[i], a[i]);
      }
    }
  }

  /** No lower-case letter is left, and nothing but those is changed. */
  predicate UpperCased(s: string, upper: string) {
    && |upper| == |s|
    && forall i :: 0 <= i < |s| ==>
         && !('a' <= upper[i] <= 'z')
         && (if 'a' <= s[i] <= 'z' then CasePair(upper[i], s[i]) else upper[i] == s[i])
  }

  lemma ToUpperExactly(s: string, upper: string)
    ensures ToUpper(s) == upper <==> UpperCased(s, upper)
  {
    ToUpperPointwise(s);
    assert forall i :: 0 <= i < |s| ==> ToUpper(s)[i] == UpperChar(s[i]);
  }

  predicate IsDigit(c: char) { '0' <= c <= '9' }

  predicate IsLower(c: char) { 'a' <= c <= 'z' }

  predicate IsLetter(c: char) { 'A' <= c <= 'Z' || IsLower(c) }

  predicate IsAlnum(c: char) { IsLetter(c) || IsDigit(c) }
}
