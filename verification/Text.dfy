/** The string operations the services share: stripping, and comparing names without
    regard to case. */
module Text {

  /** The characters Python's `str.strip` takes for white space. */
  predicate Blank(c: char) {
    var x := c as int;
    || 9 <= x <= 13 || 28 <= x <= 32 || 0x2000 <= x <= 0x200A
    || x == 0x85 || x == 0xA0 || x == 0x1680 || x == 0x2028 || x == 0x2029 || x == 0x202F || x == 0x205F || x == 0x3000
  }

  function StripLeft(s: string): string {
    if s != "" && Blank(s[0]) then StripLeft(s[1..]) else s
  }

  function Strip(s: string): string
    decreases |s|
  {
    if s != "" && Blank(s[|s| - 1]) then Strip(s[..|s| - 1]) else StripLeft(s)
  }

  lemma {:induction false} StripLeftEmptyIff(s: string)
    ensures StripLeft(s) == "" <==> forall c | c in s :: Blank(c)
  {
    if s != "" && Blank(s[0]) {
      StripLeftEmptyIff(s[1..]);
      assert s == [s[0]] + s[1..];
    }
  }

  /** Nothing is left exactly of a string of blanks. */
  lemma {:induction false} StripEmptyIff(s: string)
    ensures Strip(s) == "" <==> forall c | c in s :: Blank(c)
    decreases |s|
  {
    if s != "" && Blank(s[|s| - 1]) {
      StripEmptyIff(s[..|s| - 1]);
      assert s == s[..|s| - 1] + [s[|s| - 1]];
    } else {
      StripLeftEmptyIff(s);
    }
  }

  function LowerChar(c: char): char {
    if 'A' <= c <= 'Z' then (c as int + 32) as char else c
  }

  function Lower(s: string): string {
    seq(|s|, i requires 0 <= i < |s| => LowerChar(s[i]))
  }

  lemma {:induction false} StripLeftMeans(s: string) returns (left: string)
    ensures s == left + StripLeft(s) && forall c | c in left :: Blank(c)
    ensures StripLeft(s) != "" ==> !Blank(StripLeft(s)[0])
  {
    left := "";
    if s != "" && Blank(s[0]) {
      var rest := StripLeftMeans(s[1..]);
      left := [s[0]] + rest;
      assert s == [s[0]] + s[1..];
    }
  }

  /** Stripping takes blanks off both ends, all of them and nothing else. */
  lemma {:induction false} StripMeans(s: string) returns (left: string, right: string)
    ensures s == left + Strip(s) + right
    ensures forall c | c in left || c in right :: Blank(c)
    ensures Strip(s) != "" ==> !Blank(Strip(s)[0]) && !Blank(Strip(s)[|Strip(s)| - 1])
    decreases |s|
  {
    if s != "" && Blank(s[|s| - 1]) {
      var r;
      left, r := StripMeans(s[..|s| - 1]);
      right := r + [s[|s| - 1]];
      assert s == s[..|s| - 1] + [s[|s| - 1]];
    } else {
      left := StripLeftMeans(s);
      right := "";
      if StripLeft(s) != "" {
        assert s[|s| - 1] == StripLeft(s)[|StripLeft(s)| - 1];
      }
    }
  }

  /** `a` is `b`, or the other case of the same ASCII letter. */
  predicate SameLetter(a: char, b: char) {
    || a == b
    || ('A' <= a <= 'Z' && b as int == a as int + 32)
    || ('A' <= b <= 'Z' && a as int == b as int + 32)
  }

  /** Names compare equal exactly when they differ at most in the case of letters. */
  lemma LowerMeans(a: string, b: string)
    ensures Lower(a) == Lower(b) <==> |a| == |b| && forall i | 0 <= i < |a| :: SameLetter(a[i], b[i])
  {
    if Lower(a) == Lower(b) {
      assert |a| == |Lower(a)| == |b|;
      forall i | 0 <= i < |a| ensures SameLetter(a[i], b[i]) {
        assert Lower(a)[i] == Lower(b)[i];
      }
    }
  }
}
