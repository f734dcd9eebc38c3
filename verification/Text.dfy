/** Trimming and case folding of keys, over ASCII. */
module Text {

  predicate IsSpace(c: char) {
    c == ' ' || c == '\t' || c == '\n' || c == '\r'
  }

  function LowerChar(c: char): char {
    if 'A' <= c <= 'Z' then c - 'A' + 'a' else c
  }

  function Lower(s: string): (lowered: string)
    ensures |lowered| == |s|
    ensures forall i :: 0 <= i < |s| ==> lowered[i] == LowerChar(s[i])
  {
    if s == "" then "" else [LowerChar(s[0])] + Lower(s[1..])
  }

  function StripLeft(s: string): (stripped: string)
    ensures stripped == "" || !IsSpace(stripped[0])
    ensures |stripped| <= |s|
  {
    if s != "" && IsSpace(s[0]) then StripLeft(s[1..]) else s
  }

  function StripRight(s: string): (stripped: string)
    ensures stripped == "" || !IsSpace(stripped[|stripped| - 1])
    ensures stripped <= s
  {
    if s != "" && IsSpace(s[|s| - 1]) then StripRight(s[..|s| - 1]) else s
  }

  function Strip(s: string): (stripped: string)
    ensures stripped == "" || (!IsSpace(stripped[0]) && !IsSpace(stripped[|stripped| - 1]))
  {
    StripRight(StripLeft(s))
  }

  /** norm, normalize_skill_key */
  function Normalize(s: string): string {
    Lower(Strip(s))
  }

  predicate Blank(s: string) {
    forall i :: 0 <= i < |s| ==> IsSpace(s[i])
  }

  /** Stripping takes white space off both ends and nothing else. */
  lemma StripTakesOnlySpace(s: string) returns (left: string, right: string)
    ensures s == left + Strip(s) + right && Blank(left) && Blank(right)
  {
    left := LeftTakesOnlySpace(s);
    right := RightTakesOnlySpace(StripLeft(s));
    assert left + (Strip(s) + right) == left + Strip(s) + right;
  }

  lemma {:induction false} LeftTakesOnlySpace(s: string) returns (left: string)
    ensures s == left + StripLeft(s) && Blank(left)
  {
    left := "";
    if s != "" && IsSpace(s[0]) {
      var rest := LeftTakesOnlySpace(s[1..]);
      left := [s[0]] + rest;
      assert s == [s[0]] + s[1..];
    }
  }

  lemma {:induction false} RightTakesOnlySpace(s: string) returns (right: string)
    ensures s == StripRight(s) + right && Blank(right)
  {
    right := "";
    if s != "" && IsSpace(s[|s| - 1]) {
      var rest := RightTakesOnlySpace(s[..|s| - 1]);
      right := rest + [s[|s| - 1]];
      assert s == s[..|s| - 1] + [s[|s| - 1]];
    }
  }

  lemma StripOfTrimmed(s: string)
    requires s == "" || (!IsSpace(s[0]) && !IsSpace(s[|s| - 1]))
    ensures Strip(s) == s
  {
  }

  lemma {:induction false} LowerOfLowered(s: string)
    ensures Lower(Lower(s)) == Lower(s)
  {
    var once, twice := Lower(s), Lower(Lower(s));
    forall i | 0 <= i < |s|
      ensures twice[i] == once[i]
    {
      assert once[i] == LowerChar(s[i]) && twice[i] == LowerChar(once[i]);
    }
  }

  lemma {:induction false} LowerKeepsTrimmed(s: string)
    requires s != "" && !IsSpace(s[0]) && !IsSpace(s[|s| - 1])
    ensures !IsSpace(Lower(s)[0]) && !IsSpace(Lower(s)[|s| - 1])
  {
    var lowered, last := Lower(s), |s| - 1;
    LoweringKeepsInk(s[0]);
    LoweringKeepsInk(s[last]);
    assert lowered[0] == LowerChar(s[0]) && lowered[last] == LowerChar(s[last]);
  }

  lemma LoweringKeepsInk(c: char)
    requires !IsSpace(c)
    ensures !IsSpace(LowerChar(c))
  {
  }

  /** Normalizing a normalized key changes nothing. */
  lemma NormalizeIdempotent(s: string)
    ensures Normalize(Normalize(s)) == Normalize(s)
  {
    var stripped := Strip(s);
    if stripped != "" {
      LowerKeepsTrimmed(stripped);
    }
    StripOfTrimmed(Lower(stripped));
    LowerOfLowered(stripped);
  }
}
