/** The parts of Go's `strings` package and of the email regular expression that the core
    uses, on ASCII: a string is a sequence of characters, one per byte. */
module Strings {

  // ---------------------------------------------------------------------------
  // strings.ToLower
  // ---------------------------------------------------------------------------

  predicate IsUpper(c: char) {
    'A' <= c <= 'Z'
  }

  function LowerChar(c: char): char {
    if IsUpper(c) then ((c as int) + 32) as char else c
  }

  function ToLower(s: string): string {
    if s == [] then "" else [LowerChar(s[0])] + ToLower(s[1..])
  }

  /** ToLower maps each character on its own and keeps the length. */
  lemma {:induction false} ToLowerSpec(s: string)
    ensures |ToLower(s)| == |s|
    ensures forall i :: 0 <= i < |s| ==> ToLower(s)[i] == LowerChar(s[i])
  {
    if s != [] {
      ToLowerSpec(s[1..]);
      assert forall i :: 1 <= i < |s| ==> ToLower(s)[i] == ToLower(s[1..])[i - 1];
    }
  }

  /** Lower-casing twice is lower-casing once. */
  lemma ToLowerIdempotent(s: string)
    ensures ToLower(ToLower(s)) == ToLower(s)
  {
    var t := ToLower(s);
    ToLowerSpec(s);
    ToLowerSpec(t);
    assert forall i :: 0 <= i < |s| ==> LowerChar(t[i]) == t[i];
  }

  // ---------------------------------------------------------------------------
  // strings.TrimSpace (ASCII white space)
  // ---------------------------------------------------------------------------

  predicate IsSpace(c: char) {
    c == ' ' || c == '\t' || c == '\n' || c == '\r' || c == 11 as char || c == 12 as char
  }

  function TrimLeft(s: string): string {
    if s != [] && IsSpace(s[0]) then TrimLeft(s[1..]) else s
  }

  /** TrimLeft drops exactly the leading white space. */
  lemma {:induction false} TrimLeftSpec(s: string)
    ensures |TrimLeft(s)| <= |s| && TrimLeft(s) == s[|s| - |TrimLeft(s)|..]
    ensures TrimLeft(s) == [] || !IsSpace(TrimLeft(s)[0])
    ensures forall i :: 0 <= i < |s| - |TrimLeft(s)| ==> IsSpace(s[i])
  {
    if s != [] && IsSpace(s[0]) {
      TrimLeftSpec(s[1..]);
      forall i | 1 <= i < |s| - |TrimLeft(s)|
        ensures IsSpace(s[i])
      {
        assert s[i] == s[1..][i - 1];
      }
    }
  }

  function TrimRight(s: string): string {
    if s != [] && IsSpace(s[|s| - 1]) then TrimRight(s[..|s| - 1]) else s
  }

  /** TrimRight drops exactly the trailing white space. */
  lemma {:induction false} TrimRightSpec(s: string)
    ensures |TrimRight(s)| <= |s| && TrimRight(s) == s[..|TrimRight(s)|]
    ensures TrimRight(s) == [] || !IsSpace(TrimRight(s)[|TrimRight(s)| - 1])
    ensures forall i :: |TrimRight(s)| <= i < |s| ==> IsSpace(s[i])
  {
    if s != [] && IsSpace(s[|s| - 1]) {
      TrimRightSpec(s[..|s| - 1]);
      forall i | |TrimRight(s)| <= i < |s| - 1
        ensures IsSpace(s[i])
      {
        assert s[i] == s[..|s| - 1][i];
      }
    }
  }

  function TrimSpace(s: string): string {
    TrimRight(TrimLeft(s))
  }

  /** TrimSpace removes exactly the leading and trailing white space: the input is the
      result with white space only before and after it, and the result has none at its ends. */
  lemma TrimSpaceSpec(s: string)
    ensures var r := TrimSpace(s); var a := |s| - |TrimLeft(s)|;
      0 <= a && a + |r| <= |s| && r == s[a..a + |r|] &&
      (forall i :: 0 <= i < a ==> IsSpace(s[i])) &&
      (forall i :: a + |r| <= i < |s| ==> IsSpace(s[i])) &&
      (r == [] || (!IsSpace(r[0]) && !IsSpace(r[|r| - 1])))
  {
    var l := TrimLeft(s);
    var r := TrimRight(l);
    TrimLeftSpec(s);
    TrimRightSpec(l);
    var a := |s| - |l|;
    assert l == s[a..];
    assert r == l[..|r|];
    assert r == s[a..a + |r|] by {
      forall i | 0 <= i < |r| ensures r[i] == s[a + i] {
        assert r[i] == l[i] == s[a + i];
      }
    }
    forall i | a + |r| <= i < |s| ensures IsSpace(s[i]) {
      assert s[i] == l[i - a];
    }
    if r != [] {
      assert r[0] == l[0];
    }
  }

  /** TrimSpace only removes characters. */
  lemma TrimSpaceSubset(s: string)
    ensures forall c :: c in TrimSpace(s) ==> c in s
  {
    TrimSpaceSpec(s);
    var r := TrimSpace(s);
    var a := |s| - |TrimLeft(s)|;
    forall c | c in r ensures c in s {
      var i :| 0 <= i < |r| && r[i] == c;
      assert s[a + i] == c;
    }
  }

  /** TrimSpace gives the empty string exactly when the input is all white space. */
  lemma TrimSpaceEmpty(s: string)
    ensures TrimSpace(s) == "" <==> forall i :: 0 <= i < |s| ==> IsSpace(s[i])
  {
    TrimSpaceSpec(s);
    var l := TrimLeft(s);
    TrimLeftSpec(s);
    TrimRightSpec(l);
    if TrimSpace(s) != "" {
      var r := TrimSpace(s);
      assert !IsSpace(r[0]) && r[0] == l[0] == s[|s| - |l|];
    }
  }

  // ---------------------------------------------------------------------------
  // strings.HasPrefix / TrimPrefix
  // ---------------------------------------------------------------------------

  predicate HasPrefix(s: string, p: string) {
    |p| <= |s| && s[..|p|] == p
  }

  function TrimPrefix(s: string, p: string): (r: string)
    ensures HasPrefix(s, p) ==> s == p + r
    ensures !HasPrefix(s, p) ==> r == s
  {
    if HasPrefix(s, p) then s[|p|..] else s
  }

  // ---------------------------------------------------------------------------
  // strings.Split with a one-character separator, and its inverse strings.Join
  // ---------------------------------------------------------------------------

  function Split(s: string, sep: char): (r: seq<string>)
    ensures |r| >= 1
  {
    if s == [] then [""]
    else
      var rest := Split(s[1..], sep);
      if s[0] == sep then [""] + rest else [[s[0]] + rest[0]] + rest[1..]
  }

  function Join(parts: seq<string>, sep: char): string
    requires |parts| >= 1
  {
    if |parts| == 1 then parts[0] else parts[0] + [sep] + Join(parts[1..], sep)
  }

  function Count(s: string, c: char): nat {
    if s == [] then 0 else (if s[0] == c then 1 else 0) + Count(s[1..], c)
  }

  /** Joining the pieces with the separator gives the original string back. */
  lemma {:induction false} JoinSplit(s: string, sep: char)
    ensures Join(Split(s, sep), sep) == s
  {
    if s != [] {
      var rest := Split(s[1..], sep);
      JoinSplit(s[1..], sep);
      if s[0] == sep {
        assert Split(s, sep)[1..] == rest;
      } else {
        var r := Split(s, sep);
        if |rest| == 1 {
          assert r == [[s[0]] + rest[0]];
        } else {
          assert r[1..] == rest[1..];
          assert Join(rest, sep) == rest[0] + [sep] + Join(rest[1..], sep);
        }
      }
    }
  }

  /** There is one more piece than there are separators, and no piece holds a separator. */
  lemma {:induction false} SplitPieces(s: string, sep: char)
    ensures |Split(s, sep)| == Count(s, sep) + 1
    ensures forall i :: 0 <= i < |Split(s, sep)| ==> sep !in Split(s, sep)[i]
  {
    if s != [] {
      SplitPieces(s[1..], sep);
      var rest := Split(s[1..], sep);
      var r := Split(s, sep);
      if s[0] == sep {
        assert forall i :: 1 <= i < |r| ==> r[i] == rest[i - 1];
      } else {
        assert forall i :: 1 <= i < |r| ==> r[i] == rest[i];
      }
    }
  }

  // ---------------------------------------------------------------------------
  // strings.ReplaceAll with a one-character pattern
  // ---------------------------------------------------------------------------

  function ReplaceAll(s: string, pat: char, rep: string): (r: string)
    ensures pat !in s ==> r == s
  {
    if s == [] then "" else (if s[0] == pat then rep else [s[0]]) + ReplaceAll(s[1..], pat, rep)
  }

  // ---------------------------------------------------------------------------
  // The email pattern ^[a-zA-Z0-9._%+-]+@[a-zA-Z0-9.-]+\.[a-zA-Z]{2,}$
  // ---------------------------------------------------------------------------

  predicate IsLetter(c: char) {
    ('a' <= c <= 'z') || ('A' <= c <= 'Z')
  }

  predicate IsDigit(c: char) {
    '0' <= c <= '9'
  }

  predicate IsLocalChar(c: char) {
    IsLetter(c) || IsDigit(c) || c == '.' || c == '_' || c == '%' || c == '+' || c == '-'
  }

  predicate IsDomainChar(c: char) {
    IsLetter(c) || IsDigit(c) || c == '.' || c == '-'
  }

  /** The pattern decomposed: a non-empty local part of local characters, one '@', then a
      domain of domain characters whose last '.' has at least one character before it and
      at least two letters, and nothing else, after it. ('@' is in neither character class,
      so the '@' is unique; letters contain no '.', so the dot the pattern needs is the last.) */
  predicate IsEmail(s: string) {
    exists a, d :: 0 < a < d < |s| - 2 && s[a] == '@' && s[d] == '.' && d > a + 1 &&
      (forall i :: 0 <= i < a ==> IsLocalChar(s[i])) &&
      (forall i :: a < i < d ==> IsDomainChar(s[i])) &&
      (forall i :: d < i < |s| ==> IsLetter(s[i]))
  }
}
