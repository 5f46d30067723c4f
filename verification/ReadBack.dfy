/** Reading chunks back (backend/app/chunk.py): cutting a chunk at its blank lines gives the paragraphs
    that were packed into it. */
module ReadBack {
  import opened Wrappers
  import opened Text
  import opened Paragraphs
  import opened Chunk

  /** A paragraph as the chunker keeps it. */
  ghost predicate IsParagraph(p: string) { p != "" && IsTrimmed(p) && NoBlankLine(p) }

  ghost predicate AreParagraphs(ps: seq<string>) { forall i :: 0 <= i < |ps| ==> IsParagraph(ps[i]) }

  lemma {:induction false} JoinHead(p: string, rest: seq<string>)
    requires rest != []
    ensures JoinGroup([p] + rest) == p + JOIN + JoinGroup(rest)
  {
    var group := [p] + rest;
    if |rest| == 1 {
      assert group[..1] == [p];
    } else {
      var init, last := rest[..|rest| - 1], rest[|rest| - 1];
      JoinHead(p, init);
      assert group[..|group| - 1] == [p] + init;
      JoinsAssociate(p, JoinGroup(init), last);
    }
  }

  lemma JoinsAssociate(a: string, b: string, c: string)
    ensures a + JOIN + b + JOIN + c == a + JOIN + (b + JOIN + c)
  {
  }

  /** A joined group begins and ends as its first and last paragraphs do. */
  lemma {:induction false} JoinIsTrimmed(group: seq<string>)
    requires group != [] && AreParagraphs(group)
    ensures JoinGroup(group) != "" && IsTrimmed(JoinGroup(group))
  {
    hide NoBlankLine, IsSpace;
    assert IsParagraph(group[|group| - 1]);
    if |group| > 1 {
      JoinIsTrimmed(group[..|group| - 1]);
    }
  }

  /** The leftmost match is where there is one and none before. */
  lemma FirstMatchAt(s: string, a: nat)
    requires a < |s| && MatchAt(s, a).Some? && forall k :: 0 <= k < a ==> MatchAt(s, k) == None
    ensures FirstMatch(s, 0) == Some((a, MatchAt(s, a).value))
  {
    hide MatchAt;
    var m := FirstMatch(s, 0);
    assert m.Some?;
    assert m.value.0 == a;
  }

  lemma NoMatchInside(p: string, rest: string, i: nat)
    requires IsParagraph(p) && i < |p|
    ensures MatchAt(p + rest, i) == None
  {
    var s := p + rest;
    MatchIsBlank(s, i);
    hide MatchAt;
    forall j: nat
      ensures !BlankBetween(s, i, j)
    {
      if BlankBetween(s, i, j) {
        EndsVisibly(p, rest, i, j);
      }
    }
  }

  /** A blank line that begins inside a trimmed paragraph would end inside it too. */
  lemma EndsVisibly(p: string, rest: string, i: nat, j: nat)
    requires p != "" && IsTrimmed(p) && i < |p| && BlankBetween(p + rest, i, j)
    ensures BlankBetween(p, i, j)
  {
    var s, last := p + rest, |p| - 1;
    assert s[last] == p[last];
    assert j < |p|;
    assert forall k :: 0 <= k < |p| ==> s[k] == p[k];
  }

  /** Between two paragraphs the pattern matches the join and no more. */
  lemma MatchesJoin(p: string, rest: string)
    requires rest != "" && IsTrimmed(rest)
    ensures MatchAt(p + JOIN + rest, |p|) == Some(|p| + 2)
  {
    var s := p + JOIN + rest;
    assert s[|p|] == '\n' && s[|p| + 1] == '\n' && s[|p| + 2] == rest[0];
    assert SpacesFrom(s, |p| + 1) == |p| + 2;
  }

  lemma {:induction false} SplitJoin(group: seq<string>)
    requires group != [] && AreParagraphs(group)
    ensures Split(JoinGroup(group)) == group
  {
    hide IsSpace, NoBlankLine, MatchAt, FirstMatch;
    var p, rest := group[0], group[1..];
    assert IsParagraph(p);
    if rest == [] {
      FirstMatchIsBlank(p);
      assert group == [p];
    } else {
      var r := JoinGroup(rest);
      var s := p + JOIN + r;
      SplitJoin(rest);
      JoinIsTrimmed(rest);
      JoinHead(p, rest);
      assert group == [p] + rest;
      MatchesJoin(p, r);
      forall k | 0 <= k < |p|
        ensures MatchAt(s, k) == None
      {
        assert s == p + (JOIN + r);
        NoMatchInside(p, JOIN + r, k);
      }
      FirstMatchAt(s, |p|);
      assert s[..|p|] == p && s[|p| + 2..] == r;
    }
  }

  lemma TrimmedStays(s: string)
    requires IsTrimmed(s)
    ensures Strip(s) == s
  {
  }

  /** Cutting a joined group at its blank lines gives the group. */
  lemma GroupReadsBack(group: seq<string>)
    requires group != [] && AreParagraphs(group)
    ensures ParagraphsOf(JoinGroup(group)) == group
  {
    SplitJoin(group);
    JoinIsTrimmed(group);
    TrimmedStays(JoinGroup(group));
    hide Strip, Split, IsTrimmed, NoBlankLine;
    forall i | 0 <= i < |group|
      ensures Strip(group[i]) == group[i]
    {
      assert IsParagraph(group[i]);
      TrimmedStays(group[i]);
    }
  }

  function ReadAll(chunks: seq<string>): (r: seq<seq<string>>)
    ensures |r| == |chunks| && forall i :: 0 <= i < |chunks| ==> r[i] == ParagraphsOf(chunks[i])
  {
    seq(|chunks|, i requires 0 <= i < |chunks| => ParagraphsOf(chunks[i]))
  }

  lemma {:induction false} KeptAreParagraphs(paras: seq<string>)
    requires forall p :: p in paras ==> IsTrimmed(p) && NoBlankLine(p)
    ensures AreParagraphs(Kept(paras))
  {
    hide IsTrimmed, NoBlankLine;
    if paras != [] {
      KeptAreParagraphs(paras[..|paras| - 1]);
    }
  }

  lemma {:induction false} GroupsAreParagraphs(groups: seq<seq<string>>)
    requires AreParagraphs(Flatten(groups))
    ensures forall i :: 0 <= i < |groups| ==> AreParagraphs(groups[i])
  {
    hide IsParagraph;
    if groups != [] {
      var head, tail := groups[0], groups[1..];
      var all := Flatten(groups);
      assert forall k :: 0 <= k < |head| ==> head[k] == all[k];
      assert forall k :: 0 <= k < |Flatten(tail)| ==> Flatten(tail)[k] == all[|head| + k];
      GroupsAreParagraphs(tail);
    }
  }

  /** The whole round trip: when no paragraph is too long, cutting every chunk at its blank lines gives
      back the paragraphs of the text, each once and in order. */
  lemma ChunksReadBack(text: string, size: nat, overlap: nat, blocks: seq<seq<string>>, groups: seq<seq<string>>, chunks: seq<string>)
    requires overlap < size && AreBlocks(Kept(ParagraphsOf(text)), blocks, size, overlap)
    requires forall p :: p in ParagraphsOf(text) ==> |p| <= size
    requires IsGreedy(groups, Flatten(blocks), size) && AreChunks(chunks, groups)
    ensures Flatten(ReadAll(chunks)) == Kept(ParagraphsOf(text))
  {
    var paras := ParagraphsOf(text);
    ParagraphsAreClean(text);
    KeptAreParagraphs(paras);
    forall p | p in Kept(paras)
      ensures |p| <= size
    {
      KeptMember(paras, p);
    }
    UncutBlocks(Kept(paras), blocks, size, overlap);
    GroupsAreParagraphs(groups);
    hide ParagraphsOf, AreParagraphs, Flatten, Kept, IsBlock, JoinGroup;
    forall i | 0 <= i < |groups|
      ensures ReadAll(chunks)[i] == groups[i]
    {
      GroupReadsBack(groups[i]);
    }
    assert ReadAll(chunks) == groups;
  }
}
