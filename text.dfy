/** The few string operations the generator applies while building lines of text. */
module Text {

  function DigitChar(d: nat): char
    requires d < 10
  {
    "0123456789"[d]
  }

  function NatText(n: nat): (r: string)
    ensures |r| > 0
    decreases n
  {
    if n < 10 then [DigitChar(n)] else NatText(n / 10) + [DigitChar(n % 10)]
  }

  /** How a template literal prints an integer of magnitude below 10^21; larger numbers
      print in exponent notation, which is not modelled. */
  function NumberText(n: int): string
  {
    if n < 0 then "-" + NatText(-n) else NatText(n)
  }

  predicate StartsWith(s: string, prefix: string)
  {
    |prefix| <= |s| && s[..|prefix|] == prefix
  }

  /** `s.replace(pattern, replacement)` with a string pattern: only the first occurrence
      of the pattern is replaced; without an occurrence the string is unchanged. */
  function ReplaceFirst(s: string, pattern: string, replacement: string): string
    requires |pattern| > 0
    decreases |s|
  {
    if |s| < |pattern| then s
    else if StartsWith(s, pattern) then replacement + s[|pattern|..]
    else [s[0]] + ReplaceFirst(s[1..], pattern, replacement)
  }

  /** The pattern occurs in `s` starting at index `j`. */
  predicate OccursAt(s: string, pattern: string, j: nat)
  {
    j + |pattern| <= |s| && s[j..j + |pattern|] == pattern
  }

  lemma OccursAtTail(s: string, pattern: string, j: nat)
    requires |s| > 0
    ensures OccursAt(s[1..], pattern, j) == OccursAt(s, pattern, j + 1)
  {
    if j + 1 + |pattern| <= |s| {
      assert s[1..][j..j + |pattern|] == s[j + 1..j + 1 + |pattern|];
    }
  }

  /** When the first occurrence of the pattern starts at `i`, exactly that occurrence is
      replaced and the text around it is kept. */
  lemma {:induction false} ReplaceFirstAt(s: string, pattern: string, replacement: string, i: nat)
    requires |pattern| > 0 && OccursAt(s, pattern, i)
    requires forall j :: 0 <= j < i ==> !OccursAt(s, pattern, j)
    ensures ReplaceFirst(s, pattern, replacement) == s[..i] + replacement + s[i + |pattern|..]
    decreases i
  {
    if i == 0 {
      assert StartsWith(s, pattern);
      assert s[..0] == [];
    } else {
      assert !OccursAt(s, pattern, 0);
      assert !StartsWith(s, pattern);
      var t := s[1..];
      forall j | 0 <= j < i - 1
        ensures !OccursAt(t, pattern, j)
      {
        OccursAtTail(s, pattern, j);
      }
      OccursAtTail(s, pattern, i - 1);
      ReplaceFirstAt(t, pattern, replacement, i - 1);
      var rest := ReplaceFirst(t, pattern, replacement);
      assert ReplaceFirst(s, pattern, replacement) == [s[0]] + rest;
      assert rest == t[..i - 1] + replacement + t[i - 1 + |pattern|..];
      assert [s[0]] + t[..i - 1] == s[..i];
      assert t[i - 1 + |pattern|..] == s[i + |pattern|..];
    }
  }

  /** Without any occurrence of the pattern the string is returned unchanged. */
  lemma {:induction false} ReplaceFirstAbsent(s: string, pattern: string, replacement: string)
    requires |pattern| > 0
    requires forall j: nat :: !OccursAt(s, pattern, j)
    ensures ReplaceFirst(s, pattern, replacement) == s
    decreases |s|
  {
    if |s| >= |pattern| {
      assert !OccursAt(s, pattern, 0);
      assert !StartsWith(s, pattern);
      var t := s[1..];
      forall j: nat
        ensures !OccursAt(t, pattern, j)
      {
        OccursAtTail(s, pattern, j);
      }
      ReplaceFirstAbsent(t, pattern, replacement);
      assert [s[0]] + t == s;
    }
  }

  /** `s.slice(0, -1)`: the string without its last character ("" stays ""). */
  function DropLast(s: string): (r: string)
    ensures |s| > 0 ==> s == r + [s[|s| - 1]]
    ensures |s| == 0 ==> r == ""
  {
    if |s| == 0 then s else s[..|s| - 1]
  }
}
