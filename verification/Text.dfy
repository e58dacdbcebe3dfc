/** ASCII case folding and substring search. */
module Text {

  function LowerChar(c: char): char {
    if 'A' <= c <= 'Z' then c + 32 as char else c
  }

  function Lower(s: string): string {
    if s == [] then [] else [LowerChar(s[0])] + Lower(s[1..])
  }

  predicate Contains(s: string, part: string) {
    part <= s || (s != [] && Contains(s[1..], part))
  }

  lemma {:induction false} LowerAt(s: string, i: nat)
    requires i < |s|
    ensures |Lower(s)| == |s| && Lower(s)[i] == LowerChar(s[i])
  {
    if i > 0 {
      LowerAt(s[1..], i - 1);
    } else if |s| > 1 {
      LowerAt(s[1..], 0);
    }
  }

  /** Folding keeps every character but the capitals, which become the small letters of the alphabet. */
  lemma {:induction false} LowerIs(s: string, i: nat)
    requires i < |s|
    ensures |Lower(s)| == |s|
    ensures Lower(s)[i] == if s[i] in "ABCDEFGHIJKLMNOPQRSTUVWXYZ"
                           then "abcdefghijklmnopqrstuvwxyz"[s[i] as int - 'A' as int] else s[i]
  {
    if i > 0 {
      LowerIs(s[1..], i - 1);
    } else if |s| > 1 {
      LowerIs(s[1..], 0);
    }
  }

  /** A text contains another exactly when some slice of it is the other. */
  lemma {:induction false} ContainsExactly(s: string, part: string)
    ensures Contains(s, part) <==> exists i :: 0 <= i <= |s| - |part| && Slice(s, i, |part|) == part
  {
    if part <= s {
      assert Slice(s, 0, |part|) == part;
    }
    if s != [] {
      ContainsExactly(s[1..], part);
      if i :| 0 <= i <= |s[1..]| - |part| && Slice(s[1..], i, |part|) == part {
        assert Slice(s, i + 1, |part|) == part;
      }
      if i :| 0 <= i <= |s| - |part| && Slice(s, i, |part|) == part && i > 0 {
        assert Slice(s[1..], i - 1, |part|) == part;
      }
    }
  }

  function Slice(s: string, i: nat, n: nat): string
    requires i + n <= |s|
  {
    s[i..i + n]
  }

  lemma {:induction false} LowerConcat(a: string, b: string)
    ensures Lower(a + b) == Lower(a) + Lower(b)
  {
    if a == [] {
      assert a + b == b;
    } else {
      assert (a + b)[1..] == a[1..] + b;
      LowerConcat(a[1..], b);
    }
  }

  lemma {:induction false} ContainsPart(a: string, part: string, b: string)
    ensures Contains(a + part + b, part)
  {
    if a == [] {
      assert a + part + b == part + b;
    } else {
      assert (a + part + b)[1..] == a[1..] + part + b;
      ContainsPart(a[1..], part, b);
    }
  }
}
