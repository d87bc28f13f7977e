/** String helpers standing in for the JavaScript built-ins the pages call. */
module Text {
  /** `String.prototype.toLowerCase` on one character, restricted to ASCII letters. */
  function LowerChar(c: char): char {
    if 'A' <= c <= 'Z' then (c as int + 32) as char else c
  }

  /** `String.prototype.toLowerCase`, ASCII letters only. */
  function ToLower(s: string): (r: string)
    ensures |r| == |s|
    ensures forall i :: 0 <= i < |s| ==> r[i] == LowerChar(s[i])
  {
    if s == [] then [] else [LowerChar(s[0])] + ToLower(s[1..])
  }

  lemma {:induction false} ToLowerIdempotent(s: string)
    ensures ToLower(ToLower(s)) == ToLower(s)
  {
    var l := ToLower(s);
    assert forall i :: 0 <= i < |s| ==> ToLower(l)[i] == LowerChar(LowerChar(s[i]));
  }

  /** `s` has `p` at position i. */
  ghost predicate OccursAt(s: string, p: string, i: int) {
    0 <= i && i + |p| <= |s| && s[i..i + |p|] == p
  }

  lemma OccursInTail(s: string, p: string)
    requires |p| <= |s| && s[..|p|] != p
    ensures (exists i :: OccursAt(s, p, i)) <==> exists i :: OccursAt(s[1..], p, i)
  {
    forall i | OccursAt(s[1..], p, i) ensures OccursAt(s, p, i + 1) {
      assert s[1..][i..i + |p|] == s[i + 1..i + 1 + |p|];
    }
    forall i | OccursAt(s, p, i) ensures OccursAt(s[1..], p, i - 1) {
      assert i != 0;
      assert s[1..][i - 1..i - 1 + |p|] == s[i..i + |p|];
    }
  }

  /** `s.includes(p)`: some position of `s` starts a copy of `p`. */
  function Includes(s: string, p: string): (r: bool)
    ensures r <==> exists i :: OccursAt(s, p, i)
    decreases |s|
  {
    if |p| > |s| then false
    else if s[..|p|] == p then assert OccursAt(s, p, 0); true
    else OccursInTail(s, p); Includes(s[1..], p)
  }

  /** The characters `String.prototype.trim` removes: the ECMAScript WhiteSpace characters (tab,
      vertical tab, form feed, the byte order mark and the Unicode space separators) and the line
      terminators. */
  predicate IsWhitespace(c: char) {
    c == ' ' || c == '\t' || c == '\n' || c == '\r' || c as int == 0x0B || c as int == 0x0C
    || c as int == 0xA0 || c as int == 0xFEFF || c as int == 0x2028 || c as int == 0x2029
    || c as int == 0x1680 || 0x2000 <= c as int <= 0x200A || c as int == 0x202F || c as int == 0x205F
    || c as int == 0x3000
  }

  /** `s.trim()`: the string without leading and trailing whitespace. */
  function Trim(s: string): (r: string)
    ensures r == [] <==> forall i :: 0 <= i < |s| ==> IsWhitespace(s[i])
    ensures r != [] ==> !IsWhitespace(r[0]) && !IsWhitespace(r[|r| - 1])
    decreases |s|
  {
    if s == [] then []
    else if IsWhitespace(s[0]) then
      var r := Trim(s[1..]);
      assert forall i :: 1 <= i < |s| ==> s[i] == s[1..][i - 1];
      r
    else if IsWhitespace(s[|s| - 1]) then
      var r := Trim(s[..|s| - 1]);
      assert s[..|s| - 1][0] == s[0];
      r
    else s
  }

  /** Trimming removes a whitespace-only prefix s[..i] and a whitespace-only suffix s[j..], and
      nothing else. */
  lemma {:induction false} TrimBounds(s: string) returns (i: nat, j: nat)
    ensures i <= j <= |s| && Trim(s) == s[i..j]
    ensures IsWhitespacePrefix(s, i) && IsWhitespaceSuffix(s, j)
    decreases |s|
  {
    if s == [] {
      i, j := 0, 0;
    } else if IsWhitespace(s[0]) {
      var t := s[1..];
      var i', j' := TrimBounds(t);
      assert Trim(s) == Trim(t);
      i, j := DropFront(s, i', j');
    } else if IsWhitespace(s[|s| - 1]) {
      var t := s[..|s| - 1];
      i, j := TrimBounds(t);
      assert Trim(s) == Trim(t);
      DropBack(s, i, j);
    } else {
      i, j := 0, |s|;
    }
  }

  lemma DropFront(s: string, i': nat, j': nat) returns (i: nat, j: nat)
    requires |s| > 0 && IsWhitespace(s[0]) && i' <= j' <= |s| - 1
    requires IsWhitespacePrefix(s[1..], i') && IsWhitespaceSuffix(s[1..], j')
    ensures i == i' + 1 && j == j' + 1 && s[1..][i'..j'] == s[i..j]
    ensures IsWhitespacePrefix(s, i) && IsWhitespaceSuffix(s, j)
  {
    var t := s[1..];
    i, j := i' + 1, j' + 1;
    forall k | 0 <= k < i ensures IsWhitespace(s[k]) {
      if k > 0 { assert s[k] == t[k - 1]; }
    }
    forall k | j <= k < |s| ensures IsWhitespace(s[k]) {
      assert s[k] == t[k - 1];
    }
  }

  lemma DropBack(s: string, i: nat, j: nat)
    requires |s| > 0 && IsWhitespace(s[|s| - 1]) && i <= j <= |s| - 1
    requires IsWhitespacePrefix(s[..|s| - 1], i) && IsWhitespaceSuffix(s[..|s| - 1], j)
    ensures s[..|s| - 1][i..j] == s[i..j]
    ensures IsWhitespacePrefix(s, i) && IsWhitespaceSuffix(s, j)
  {
    var t := s[..|s| - 1];
    forall k | 0 <= k < i ensures IsWhitespace(s[k]) {
      assert s[k] == t[k];
    }
    forall k | j <= k < |s| ensures IsWhitespace(s[k]) {
      if k < |t| { assert s[k] == t[k]; }
    }
  }

  lemma TrimRemovesEnds(s: string)
    ensures exists i, j :: 0 <= i <= j <= |s| && Trim(s) == s[i..j] && IsWhitespacePrefix(s, i) && IsWhitespaceSuffix(s, j)
  {
    var i, j := TrimBounds(s);
  }

  ghost predicate IsWhitespacePrefix(s: string, i: int) {
    forall k :: 0 <= k < i && k < |s| ==> IsWhitespace(s[k])
  }

  ghost predicate IsWhitespaceSuffix(s: string, j: int) {
    forall k :: 0 <= j <= k < |s| ==> IsWhitespace(s[k])
  }

  /** `!s.trim()`: the string is empty or only whitespace. */
  predicate IsBlank(s: string): (b: bool)
    ensures b <==> forall i :: 0 <= i < |s| ==> IsWhitespace(s[i])
  {
    Trim(s) == []
  }
}
