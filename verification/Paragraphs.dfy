/** Cutting a text at its blank lines (backend/app/chunk.py): the pattern is a newline, any
    white space, and a newline again, and each match is as long as it can be. */
module Paragraphs {
  import opened Wrappers
  import opened Text

  /** Two newlines with nothing but white space between them. */
  ghost predicate BlankBetween(s: string, i: nat, j: nat) {
    i < j < |s| && s[i] == '\n' && s[j] == '\n' && forall k :: i < k < j ==> IsSpace(s[k])
  }

  ghost predicate NoBlankLine(s: string) {
    forall i, j :: 0 <= i < j < |s| ==> !BlankBetween(s, i, j)
  }

  /** Where the white space that begins at `i` ends. */
  function SpacesFrom(s: string, i: nat): (e: nat)
    requires i <= |s|
    ensures i <= e <= |s| && (forall k :: i <= k < e ==> IsSpace(s[k])) && (e < |s| ==> !IsSpace(s[e]))
    decreases |s| - i
  {
    if i < |s| && IsSpace(s[i]) then SpacesFrom(s, i + 1) else i
  }

  /** The last newline of `s` in `i..e`. */
  function LastNewline(s: string, i: nat, e: nat): (r: Option<nat>)
    requires i <= e <= |s|
    ensures r.Some? ==> i <= r.value < e && s[r.value] == '\n'
    ensures forall k :: i <= k < e && (r.Some? ==> k > r.value) ==> s[k] != '\n'
  {
    if i == e then None else if s[e - 1] == '\n' then Some(e - 1) else LastNewline(s, i, e - 1)
  }

  /** The end of the match that starts at `i`, if there is one. */
  function MatchAt(s: string, i: nat): (r: Option<nat>)
    requires i < |s|
    ensures r.Some? ==> i + 2 <= r.value <= |s|
  {
    if s[i] != '\n' then None
    else
      var last := LastNewline(s, i + 1, SpacesFrom(s, i + 1));
      if last == None then None else Some(last.value + 1)
  }

  /** The leftmost match from `i` on, as its start and end. */
  function FirstMatch(s: string, i: nat): (r: Option<(nat, nat)>)
    requires i <= |s|
    ensures r.Some? ==> i <= r.value.0 < r.value.1 <= |s| && MatchAt(s, r.value.0) == Some(r.value.1)
    ensures forall k :: i <= k < (if r.Some? then r.value.0 else |s|) ==> MatchAt(s, k) == None
    decreases |s| - i
  {
    if i == |s| then None
    else
      var m := MatchAt(s, i);
      if m.Some? then Some((i, m.value)) else FirstMatch(s, i + 1)
  }

  function Split(s: string): (r: seq<string>)
    ensures r != []
    decreases |s|
  {
    var m := FirstMatch(s, 0);
    if m == None then [s] else [s[..m.value.0]] + Split(s[m.value.1..])
  }

  function StripAll(ps: seq<string>): (r: seq<string>)
    ensures |r| == |ps| && forall i :: 0 <= i < |ps| ==> r[i] == Strip(ps[i])
  {
    seq(|ps|, i requires 0 <= i < |ps| => Strip(ps[i]))
  }

  /** The paragraphs of a text, stripped; some may be empty. */
  function ParagraphsOf(text: string): seq<string> { StripAll(Split(Strip(text))) }

  /** There is a match at `i` exactly when a blank line begins there. */
  lemma MatchIsBlank(s: string, i: nat)
    requires i < |s|
    ensures MatchAt(s, i).Some? <==> exists j :: BlankBetween(s, i, j)
    ensures MatchAt(s, i).Some? ==> forall k :: i <= k < MatchAt(s, i).value ==> IsSpace(s[k])
  {
    if s[i] == '\n' {
      var e := SpacesFrom(s, i + 1);
      var last := LastNewline(s, i + 1, e);
      if last.Some? {
        assert BlankBetween(s, i, last.value);
      }
      if j :| BlankBetween(s, i, j) {
        assert IsSpace('\n');
        assert j < e;
      }
    }
  }

  /** A blank line inside a slice is one of the whole text. */
  lemma BlankOutside(s: string, lo: nat, hi: nat, i: nat, j: nat)
    requires lo <= hi <= |s| && BlankBetween(s[lo..hi], i, j)
    ensures BlankBetween(s, lo + i, lo + j)
  {
    hide IsSpace;
    forall k | lo + i < k < lo + j
      ensures IsSpace(s[k])
    {
      assert s[lo..hi][k - lo] == s[k];
    }
  }

  lemma FirstMatchIsBlank(s: string)
    ensures FirstMatch(s, 0) == None <==> NoBlankLine(s)
    ensures FirstMatch(s, 0).Some? ==> NoBlankLine(s[..FirstMatch(s, 0).value.0])
  {
    hide IsSpace;
    var m := FirstMatch(s, 0);
    var end := if m.Some? then m.value.0 else |s|;
    forall i, j | 0 <= i < j < end
      ensures !BlankBetween(s[0..end], i, j)
    {
      MatchIsBlank(s, i);
      if BlankBetween(s[0..end], i, j) {
        BlankOutside(s, 0, end, i, j);
      }
    }
    if m == None {
      assert s[0..end] == s;
    } else {
      assert s[0..end] == s[..end];
      MatchIsBlank(s, m.value.0);
      var j :| BlankBetween(s, m.value.0, j);
    }
  }

  /** No piece holds a blank line. */
  lemma {:induction false} PiecesHaveNoBlank(s: string)
    ensures forall p :: p in Split(s) ==> NoBlankLine(p)
    decreases |s|
  {
    hide NoBlankLine, MatchAt;
    FirstMatchIsBlank(s);
    var m := FirstMatch(s, 0);
    if m.Some? {
      PiecesHaveNoBlank(s[m.value.1..]);
    }
  }

  lemma SliceHasNoBlank(s: string, lo: nat, hi: nat)
    requires lo <= hi <= |s| && NoBlankLine(s)
    ensures NoBlankLine(s[lo..hi])
  {
    hide IsSpace;
    var t := s[lo..hi];
    forall i, j | 0 <= i < j < |t|
      ensures !BlankBetween(t, i, j)
    {
      if BlankBetween(t, i, j) {
        BlankOutside(s, lo, hi, i, j);
      }
    }
  }

  lemma StripHasNoBlank(s: string)
    requires NoBlankLine(s)
    ensures NoBlankLine(Strip(s))
  {
    var i := StripLeftIsSuffix(s);
    var j := StripRightIsPrefix(StripLeft(s));
    assert Strip(s) == s[i..i + j];
    SliceHasNoBlank(s, i, i + j);
    hide NoBlankLine;
  }

  /** Every paragraph is trimmed and holds no blank line. */
  lemma ParagraphsAreClean(text: string)
    ensures forall p :: p in ParagraphsOf(text) ==> IsTrimmed(p) && NoBlankLine(p)
  {
    hide IsSpace, NoBlankLine, Strip, IsTrimmed, Split;
    var pieces := Split(Strip(text));
    PiecesHaveNoBlank(Strip(text));
    forall i | 0 <= i < |pieces|
      ensures IsTrimmed(Strip(pieces[i])) && NoBlankLine(Strip(pieces[i]))
    {
      assert pieces[i] in pieces;
      StripTrims(pieces[i]);
      StripHasNoBlank(pieces[i]);
    }
  }

  // ------------------------------------------------------------ nothing visible is lost

  function Concat(ps: seq<string>): string {
    if ps == [] then "" else ps[0] + Concat(ps[1..])
  }

  lemma {:induction false} ConcatAppend(a: seq<string>, b: seq<string>)
    ensures Concat(a + b) == Concat(a) + Concat(b)
  {
    if a == [] {
      assert a + b == b;
    } else {
      ConcatAppend(a[1..], b);
      assert (a + b)[0] == a[0] && (a + b)[1..] == a[1..] + b;
      AppendAssociates(a[0], Concat(a[1..]), Concat(b));
    }
  }

  lemma ConcatCons(p: string, ps: seq<string>)
    ensures Concat([p] + ps) == p + Concat(ps)
  {
    assert ([p] + ps)[1..] == ps;
  }

  lemma {:induction false} SplitKeeps(s: string)
    ensures Visible(Concat(Split(s))) == Visible(s)
    decreases |s|
  {
    hide Visible, IsSpace, MatchAt;
    var m := FirstMatch(s, 0);
    if m == None {
      ConcatCons(s, []);
      assert s + Concat([]) == s && [s] + [] == [s];
    } else {
      var (a, b) := m.value;
      SplitKeeps(s[b..]);
      ConcatCons(s[..a], Split(s[b..]));
      VisibleAppend(s[..a], Concat(Split(s[b..])));
      CutKeeps(s, a, b);
    }
  }

  lemma VisibleAt(s: string, i: nat)
    requires i <= |s|
    ensures Visible(s) == Visible(s[..i]) + Visible(s[i..])
  {
    hide Visible, IsSpace;
    assert s == s[..i] + s[i..];
    VisibleAppend(s[..i], s[i..]);
  }

  lemma CutKeeps(s: string, a: nat, b: nat)
    requires a < b <= |s| && MatchAt(s, a) == Some(b)
    ensures Visible(s) == Visible(s[..a]) + Visible(s[b..])
  {
    hide Visible, IsSpace;
    MatchIsBlank(s, a);
    VisibleOfSpaces(s[a..b]);
    VisibleAt(s[..b], a);
    VisibleAt(s, b);
    assert s[..b][..a] == s[..a] && s[..b][a..] == s[a..b];
  }

  lemma {:induction false} StripAllKeeps(ps: seq<string>)
    ensures Visible(Concat(StripAll(ps))) == Visible(Concat(ps))
  {
    hide Visible, Strip;
    if ps == [] {
      assert StripAll(ps) == ps;
    } else {
      var head, tail := ps[0], ps[1..];
      StripAllKeeps(tail);
      assert ps == [head] + tail && StripAll(ps) == [Strip(head)] + StripAll(tail);
      ConcatCons(head, tail);
      ConcatCons(Strip(head), StripAll(tail));
      VisibleAppend(head, Concat(tail));
      VisibleAppend(Strip(head), Concat(StripAll(tail)));
      StripKeeps(head);
    }
  }

  /** Splitting and stripping lose nothing but white space. */
  lemma ParagraphsKeepText(text: string)
    ensures Visible(Concat(ParagraphsOf(text))) == Visible(text)
  {
    StripKeeps(text);
    SplitKeeps(Strip(text));
    StripAllKeeps(Split(Strip(text)));
    hide Visible, Strip, Split;
  }
}
