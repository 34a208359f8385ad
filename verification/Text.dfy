/** The ASCII part of the string methods the backend uses to normalise symbols. */
module Text {

  function UpperChar(c: char): char { if 'a' <= c <= 'z' then c - 'a' + 'A' else c }

  function LowerChar(c: char): char { if 'A' <= c <= 'Z' then c - 'A' + 'a' else c }

  /** What `str.strip` takes for whitespace: the blank, tab to carriage return, and the four separators. */
  predicate IsSpace(c: char) { c == ' ' || 9 <= c as int <= 13 || 28 <= c as int <= 31 }

  ghost const BLANKS: set<int> := {9, 10, 11, 12, 13, 28, 29, 30, 31, 32}

  function Upper(s: string): string { seq(|s|, i requires 0 <= i < |s| => UpperChar(s[i])) }

  function Lower(s: string): string { seq(|s|, i requires 0 <= i < |s| => LowerChar(s[i])) }

  function Strip(s: string): string {
    if s == [] then []
    else if IsSpace(s[0]) then Strip(s[1..])
    else if IsSpace(s[|s| - 1]) then Strip(s[..|s| - 1])
    else s
  }

  /** `str(symbol or "").strip().upper()`. */
  function Normalize(s: string): string { Upper(Strip(s)) }

  ghost predicate IsNormal(s: string) { Normalize(s) == s }

  lemma {:induction false} StripIsBare(s: string)
    ensures var r := Strip(s); r != [] ==> r[0] as int !in BLANKS && r[|r| - 1] as int !in BLANKS
  {
    if s == [] {
    } else if IsSpace(s[0]) {
      StripIsBare(s[1..]);
    } else if IsSpace(s[|s| - 1]) {
      StripIsBare(s[..|s| - 1]);
    }
  }

  lemma NormalizeIsNormal(s: string)
    ensures IsNormal(Normalize(s))
  {
    StripIsBare(s);
    assert Strip(Normalize(s)) == Normalize(s);
    assert Upper(Normalize(s)) == Normalize(s);
  }

  /** Stripping takes whitespace off both ends and nothing else. */
  lemma {:induction false} StripKeepsMiddle(s: string) returns (before: string, after: string)
    ensures s == before + Strip(s) + after
    ensures forall c :: c in before || c in after ==> c as int in BLANKS
  {
    before, after := [], [];
    if s != [] && IsSpace(s[0]) {
      before, after := StripKeepsMiddle(s[1..]);
      before := [s[0]] + before;
    } else if s != [] && IsSpace(s[|s| - 1]) {
      before, after := StripKeepsMiddle(s[..|s| - 1]);
      after := after + [s[|s| - 1]];
    }
  }

  /** Case conversion: the letters differ by 32, everything else stays, and either undoes the other. */
  lemma CaseRoundTrip(s: string)
    ensures Upper(Lower(s)) == Upper(s) && Lower(Upper(s)) == Lower(s)
    ensures |Upper(s)| == |s| && forall i :: 0 <= i < |s| ==>
              Upper(s)[i] as int == s[i] as int - (if 'a' <= s[i] <= 'z' then 32 else 0)
  {
  }
}
