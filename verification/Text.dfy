/** Strings as the services compare them: trimmed, and case-folded for letters A to Z. */
module Text {

  /** The white space and line terminators that trimming removes. */
  predicate IsSpace(c: char) {
    var u := c as int;
    || 9 <= u <= 13 || u == 0x20 || u == 0xA0 || u == 0x1680 || 0x2000 <= u <= 0x200A
    || u == 0x2028 || u == 0x2029 || u == 0x202F || u == 0x205F || u == 0x3000 || u == 0xFEFF
  }

  function TrimLeft(s: string): string {
    if s != [] && IsSpace(s[0]) then TrimLeft(s[1..]) else s
  }

  function TrimRight(s: string): string {
    if s != [] && IsSpace(s[|s| - 1]) then TrimRight(s[..|s| - 1]) else s
  }

  function Trim(s: string): string { TrimRight(TrimLeft(s)) }

  predicate Trimmed(s: string) { s == [] || (!IsSpace(s[0]) && !IsSpace(s[|s| - 1])) }

  lemma {:induction false} TrimLeftTrims(s: string)
    ensures TrimLeft(s) == [] || !IsSpace(TrimLeft(s)[0])
  {
    if s != [] && IsSpace(s[0]) { TrimLeftTrims(s[1..]); }
  }

  lemma {:induction false} TrimRightTrims(s: string)
    ensures TrimRight(s) == [] || !IsSpace(TrimRight(s)[|TrimRight(s)| - 1])
    ensures TrimRight(s) <= s
  {
    if s != [] && IsSpace(s[|s| - 1]) { TrimRightTrims(s[..|s| - 1]); }
  }

  lemma TrimTrims(s: string)
    ensures Trimmed(Trim(s))
  {
    TrimLeftTrims(s);
    TrimRightTrims(TrimLeft(s));
  }

  lemma TrimmedIsFixed(s: string)
    ensures Trimmed(s) <==> Trim(s) == s
  {
    if Trim(s) == s { TrimTrims(s); }
  }

  predicate AllSpace(s: string) { forall i | 0 <= i < |s| :: IsSpace(s[i]) }

  lemma {:induction false} TrimLeftCuts(s: string) returns (n: nat)
    ensures n <= |s| && AllSpace(s[..n]) && TrimLeft(s) == s[n..]
  {
    n := 0;
    if s != [] && IsSpace(s[0]) {
      var k := TrimLeftCuts(s[1..]);
      n := k + 1;
      assert s[..n] == [s[0]] + s[1..][..k];
    }
  }

  lemma {:induction false} TrimRightCuts(s: string) returns (n: nat)
    ensures n <= |s| && AllSpace(s[n..]) && TrimRight(s) == s[..n]
  {
    n := |s|;
    if s != [] && IsSpace(s[|s| - 1]) {
      n := TrimRightCuts(s[..|s| - 1]);
      forall i | n <= i < |s| - 1 ensures IsSpace(s[i]) { assert s[..|s| - 1][n..][i - n] == s[i]; }
    }
  }

  /** Trimming cuts white space off both ends, all of it and nothing else. */
  lemma TrimCuts(s: string) returns (front: string, back: string)
    ensures s == front + Trim(s) + back && AllSpace(front) && AllSpace(back) && Trimmed(Trim(s))
  {
    TrimTrims(s);
    var m := TrimLeftCuts(s);
    var n := TrimRightCuts(TrimLeft(s));
    front, back := s[..m], s[m..][n..];
  }

  function LowerChar(c: char): char {
    if 'A' <= c <= 'Z' then (c as int + 32) as char else c
  }

  function Lower(s: string): (r: string)
    ensures |r| == |s| && forall i :: 0 <= i < |s| ==> r[i] == LowerChar(s[i])
  {
    seq(|s|, i requires 0 <= i < |s| => LowerChar(s[i]))
  }

  /** `norm`: what two codes are compared by. */
  function Norm(s: string): string { Lower(Trim(s)) }

  /** Normalising is stable: trimming first, or normalising again, changes nothing. */
  lemma NormStable(s: string)
    ensures Norm(Trim(s)) == Norm(s) && Norm(Norm(s)) == Norm(s)
    ensures Norm(s) == [] <==> Trim(s) == []
  {
    TrimTrims(s);
    TrimmedIsFixed(Trim(s));
    assert Trimmed(Lower(Trim(s)));
    TrimmedIsFixed(Lower(Trim(s)));
    assert Lower(Lower(Trim(s))) == Lower(Trim(s));
  }

  /** What normalising leaves alone: trimmed texts without capitals. */
  lemma NormFixedIff(s: string)
    ensures Norm(s) == s <==> Trimmed(s) && Lower(s) == s
  {
    TrimmedIsFixed(s);
    if Norm(s) == s {
      TrimTrims(s);
      assert |Trim(s)| == |s|;
      TrimIsWithin(s);
    }
  }

  /** Trimming only cuts at the ends. */
  lemma TrimIsWithin(s: string)
    ensures |Trim(s)| <= |s| && (|Trim(s)| == |s| ==> Trim(s) == s)
  {
    TrimLeftShortens(s);
    TrimRightTrims(TrimLeft(s));
  }

  lemma {:induction false} TrimLeftShortens(s: string)
    ensures |TrimLeft(s)| <= |s| && (|TrimLeft(s)| == |s| ==> TrimLeft(s) == s)
  {
    if s != [] && IsSpace(s[0]) { TrimLeftShortens(s[1..]); }
  }
}
