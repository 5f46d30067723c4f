/** White space, as Python's strings and regular expressions see it. */
module Text {

  /** The characters `isspace`, `strip` and the class `\s` agree on. */
  predicate IsSpace(c: char) {
    || IsLineBreak(c)
    || c == '\t' || c == ' ' || c == '\U{1f}' || c == '\U{a0}' || c == '\U{1680}' || ('\U{2000}' <= c <= '\U{200a}')
    || c == '\U{202f}' || c == '\U{205f}' || c == '\U{3000}'
  }

  /** Where lines end; all of these are white space too. */
  predicate IsLineBreak(c: char) {
    || ('\n' <= c <= '\r') || ('\U{1c}' <= c <= '\U{1e}')
    || c == '\U{85}' || c == '\U{2028}' || c == '\U{2029}'
  }

  function StripLeft(s: string): string {
    if s != "" && IsSpace(s[0]) then StripLeft(s[1..]) else s
  }

  function StripRight(s: string): string {
    if s != "" && IsSpace(s[|s| - 1]) then StripRight(s[..|s| - 1]) else s
  }

  function Strip(s: string): string { StripRight(StripLeft(s)) }

  /** What is left of a text when all white space is dropped. */
  function Visible(s: string): string {
    if s == "" then "" else (if IsSpace(s[0]) then "" else [s[0]]) + Visible(s[1..])
  }

  lemma {:induction false} StripLeftStart(s: string)
    ensures StripLeft(s) != "" ==> !IsSpace(StripLeft(s)[0])
  {
    if s != "" && IsSpace(s[0]) {
      StripLeftStart(s[1..]);
    }
  }

  lemma {:induction false} StripRightStart(s: string)
    ensures StripRight(s) != "" ==> s != "" && StripRight(s)[0] == s[0]
  {
    if s != "" && IsSpace(s[|s| - 1]) {
      StripRightStart(s[..|s| - 1]);
    }
  }

  lemma {:induction false} StripRightEnd(s: string)
    ensures StripRight(s) != "" ==> !IsSpace(StripRight(s)[|StripRight(s)| - 1])
  {
    if s != "" && IsSpace(s[|s| - 1]) {
      StripRightEnd(s[..|s| - 1]);
    }
  }

  lemma AppendAssociates<T>(a: seq<T>, b: seq<T>, c: seq<T>)
    ensures a + (b + c) == (a + b) + c
  {
  }

  lemma {:induction false} VisibleAppend(a: string, b: string)
    ensures Visible(a + b) == Visible(a) + Visible(b)
  {
    hide IsSpace;
    if a == "" {
      assert a + b == b;
    } else {
      VisibleAppend(a[1..], b);
      assert (a + b)[0] == a[0] && (a + b)[1..] == a[1..] + b;
      VisibleHead(a);
      VisibleHead(a + b);
      hide Visible;
      AppendAssociates(Visible([a[0]]), Visible(a[1..]), Visible(b));
    }
  }

  lemma VisibleHead(s: string)
    requires s != ""
    ensures Visible(s) == Visible([s[0]]) + Visible(s[1..])
  {
    hide IsSpace;
    assert [s[0]][1..] == "";
  }

  lemma {:induction false} VisibleOfSpaces(s: string)
    requires forall c :: c in s ==> IsSpace(c)
    ensures Visible(s) == ""
  {
    hide IsSpace;
    if s != "" {
      VisibleOfSpaces(s[1..]);
    }
  }

  lemma {:induction false} StripLeftKeeps(s: string)
    ensures Visible(StripLeft(s)) == Visible(s)
  {
    hide IsSpace;
    if s != "" && IsSpace(s[0]) {
      StripLeftKeeps(s[1..]);
    }
  }

  lemma {:induction false} StripRightKeeps(s: string)
    ensures Visible(StripRight(s)) == Visible(s)
  {
    hide IsSpace;
    if s != "" && IsSpace(s[|s| - 1]) {
      var init, last := s[..|s| - 1], [s[|s| - 1]];
      StripRightKeeps(init);
      assert s == init + last;
      VisibleAppend(init, last);
      VisibleOfSpaces(last);
    }
  }

  /** Stripping drops white space only. */
  lemma StripKeeps(s: string)
    ensures Visible(Strip(s)) == Visible(s)
  {
    StripLeftKeeps(s);
    StripRightKeeps(StripLeft(s));
  }

  lemma {:induction false} StripLeftIsSuffix(s: string) returns (i: nat)
    ensures i <= |s| && StripLeft(s) == s[i..]
  {
    i := 0;
    if s != "" && IsSpace(s[0]) {
      var j := StripLeftIsSuffix(s[1..]);
      i := j + 1;
    }
  }

  lemma {:induction false} StripRightIsPrefix(s: string) returns (i: nat)
    ensures i <= |s| && StripRight(s) == s[..i]
  {
    i := |s|;
    if s != "" && IsSpace(s[|s| - 1]) {
      i := StripRightIsPrefix(s[..|s| - 1]);
      assert s[..|s| - 1][..i] == s[..i];
    }
  }

  /** Nothing is left to strip. */
  predicate IsTrimmed(s: string) {
    s != "" ==> !IsSpace(s[0]) && !IsSpace(s[|s| - 1])
  }

  lemma StripTrims(s: string)
    ensures IsTrimmed(Strip(s))
  {
    StripLeftStart(s);
    StripRightStart(StripLeft(s));
    StripRightEnd(StripLeft(s));
  }
}
