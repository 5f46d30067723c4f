/**
 Text chunking (backend/app/chunk.py): the paragraphs of a text, the long ones cut into
 overlapping windows, are packed greedily under a size limit, paying for a
 two-character join.
 */
module Chunk {
  import opened Wrappers
  import opened Text
  import opened Paragraphs

  const JOIN := "\n\n"

  function Min(a: int, b: int): int { if a < b then a else b }

  function Flatten<T>(groups: seq<seq<T>>): seq<T> {
    if groups == [] then [] else groups[0] + Flatten(groups[1..])
  }

  lemma {:induction false} FlattenAppend<T>(a: seq<seq<T>>, b: seq<seq<T>>)
    ensures Flatten(a + b) == Flatten(a) + Flatten(b)
  {
    if a == [] {
      assert a + b == b;
    } else {
      var head, tail := a[0], a[1..];
      FlattenAppend(tail, b);
      assert (a + b)[0] == head && (a + b)[1..] == tail + b;
      AppendAssociates(head, Flatten(tail), Flatten(b));
    }
  }

  lemma FlattenLast<T>(groups: seq<seq<T>>, last: seq<T>)
    ensures Flatten(groups + [last]) == Flatten(groups) + last
  {
    FlattenAppend(groups, [last]);
    assert Flatten([last]) == last + Flatten([last][1..]);
  }

  // ------------------------------------------------------------ windows

  /** A window every `size - overlap` characters until the paragraph ends. */
  ghost predicate IsWindows(para: string, ws: seq<string>, size: nat, overlap: nat)
    requires overlap < size
  {
    var step := size - overlap;
    && |ws| > 0
    && (|ws| - 1) * step < |para| <= |ws| * step
    && forall j :: 0 <= j < |ws| ==> IsWindowAt(para, ws[j], j * step, size)
  }

  ghost predicate IsWindowAt(para: string, w: string, start: int, size: nat) {
    0 <= start < |para| && w == para[start..Min(start + size, |para|)]
  }

  /** What one paragraph contributes to the pieces. */
  ghost predicate IsBlock(para: string, block: seq<string>, size: nat, overlap: nat)
    requires overlap < size
  {
    if |para| <= size then block == [para] else IsWindows(para, block, size, overlap)
  }

  /** Undoes the windowing: the first window whole, then each later one without
      the text it shares with its predecessor. */
  function Rebuild(ws: seq<string>, overlap: nat): string {
    if ws == [] then ""
    else if |ws| == 1 then ws[0]
    else
      var last := ws[|ws| - 1];
      Rebuild(ws[..|ws| - 1], overlap) + last[Min(overlap, |last|)..]
  }

  lemma {:induction false} RebuildPrefix(para: string, ws: seq<string>, size: nat, overlap: nat, k: nat)
    requires overlap < size && IsWindows(para, ws, size, overlap)
    requires 1 <= k <= |ws|
    ensures Rebuild(ws[..k], overlap) == para[..Min((k - 1) * (size - overlap) + size, |para|)]
  {
    var step := size - overlap;
    assert IsWindowAt(para, ws[k - 1], (k - 1) * step, size);
    if k > 1 {
      RebuildPrefix(para, ws, size, overlap, k - 1);
      assert ws[..k][..k - 1] == ws[..k - 1];
      NextStart(k - 1, step);
      JoinWindow(para, ws[k - 1], (k - 1) * step, size, overlap);
    }
  }

  lemma NextStart(k: nat, step: nat)
    requires k >= 1
    ensures (k - 1) * step + step == k * step
  {
  }

  /** The text up to the overlap's end, and the window beyond it. */
  lemma JoinWindow(para: string, w: string, start: nat, size: nat, overlap: nat)
    requires overlap < size && IsWindowAt(para, w, start, size)
    ensures para[..Min(start + overlap, |para|)] + w[Min(overlap, |w|)..] == para[..Min(start + size, |para|)]
  {
  }

  /** The round trip: nothing is lost or repeated once the overlaps are dropped. */
  lemma WindowsRoundTrip(para: string, ws: seq<string>, size: nat, overlap: nat)
    requires overlap < size && IsWindows(para, ws, size, overlap)
    ensures Rebuild(ws, overlap) == para
  {
    RebuildPrefix(para, ws, size, overlap, |ws|);
    assert ws[..|ws|] == ws;
    assert (|ws| - 1) * (size - overlap) + size >= |ws| * (size - overlap);
  }

  /** Each window starts with exactly the tail of the one before it. */
  lemma WindowsShareBoundary(para: string, ws: seq<string>, size: nat, overlap: nat, j: nat)
    requires overlap < size && IsWindows(para, ws, size, overlap)
    requires j + 1 < |ws|
    ensures |ws[j]| >= size - overlap
    ensures ws[j][size - overlap..] == ws[j + 1][..Min(overlap, |ws[j + 1]|)]
  {
    var step := size - overlap;
    var here, next := j * step, (j + 1) * step;
    assert next == here + step;
    assert IsWindowAt(para, ws[j], here, size);
    assert IsWindowAt(para, ws[j + 1], next, size);
    WindowsMeet(para, ws[j], ws[j + 1], here, step, overlap);
  }

  lemma WindowsMeet(para: string, w: string, v: string, start: int, step: nat, overlap: nat)
    requires IsWindowAt(para, w, start, step + overlap) && IsWindowAt(para, v, start + step, step + overlap)
    ensures |w| >= step && w[step..] == v[..Min(overlap, |v|)]
  {
    var n := |para|;
    var m := Min(overlap, |v|);
    assert Min(start + step + overlap, n) == start + step + m;
    assert w[step..] == para[start + step..start + step + m];
    assert v[..m] == para[start + step..start + step + m];
  }

  /** Every piece is non-empty and at most `size` long. */
  lemma BlockBounds(para: string, block: seq<string>, size: nat, overlap: nat)
    requires overlap < size && para != "" && IsBlock(para, block, size, overlap)
    ensures forall p :: p in block ==> 0 < |p| <= size
    ensures Rebuild(block, overlap) == para
  {
    if |para| > size {
      WindowsRoundTrip(para, block, size, overlap);
      forall j | 0 <= j < |block|
        ensures 0 < |block[j]| <= size
      {
        assert IsWindowAt(para, block[j], j * (size - overlap), size);
      }
    }
  }

  method Windows(para: string, size: nat, overlap: nat) returns (ws: seq<string>)
    requires overlap < size < |para|
    ensures IsWindows(para, ws, size, overlap)
  {
    var step := size - overlap;
    ws := [];
    var i := 0;
    while i < |para|
      invariant i == |ws| * step
      invariant |ws| > 0 ==> (|ws| - 1) * step < |para|
      invariant forall j :: 0 <= j < |ws| ==> IsWindowAt(para, ws[j], j * step, size)
      decreases |para| - i
    {
      assert IsWindowAt(para, para[i..Min(i + size, |para|)], |ws| * step, size);
      ws := ws + [para[i..Min(i + size, |para|)]];
      i := i + step;
    }
  }

  // ------------------------------------------------------------ packing

  /** The pieces of a group with a blank line between them. */
  function JoinGroup(group: seq<string>): string {
    if group == [] then ""
    else if |group| == 1 then group[0]
    else JoinGroup(group[..|group| - 1]) + JOIN + group[|group| - 1]
  }

  /** Joined length plus one join, which adds up over concatenation. */
  ghost function Width(group: seq<string>): nat {
    if group == [] then 0 else |group[0]| + |JOIN| + Width(group[1..])
  }

  lemma {:induction false} WidthAppend(a: seq<string>, b: seq<string>)
    ensures Width(a + b) == Width(a) + Width(b)
  {
    if a == [] {
      assert a + b == b;
    } else {
      WidthAppend(a[1..], b);
      assert (a + b)[1..] == a[1..] + b;
    }
  }

  lemma {:induction false} JoinedLength(group: seq<string>)
    requires group != []
    ensures |JoinGroup(group)| + |JOIN| == Width(group)
  {
    if |group| > 1 {
      JoinedLength(group[..|group| - 1]);
      WidthAppend(group[..|group| - 1], [group[|group| - 1]]);
      assert group[..|group| - 1] + [group[|group| - 1]] == group;
    }
  }

  /** An order-preserving grouping of the pieces in which every group fits. */
  ghost predicate IsGrouping(groups: seq<seq<string>>, pieces: seq<string>, size: nat) {
    && Flatten(groups) == pieces
    && forall i :: 0 <= i < |groups| ==> groups[i] != [] && |JoinGroup(groups[i])| <= size
  }

  /** No group could have taken the first piece of the next one as well. */
  ghost predicate IsGreedy(groups: seq<seq<string>>, pieces: seq<string>, size: nat) {
    && IsGrouping(groups, pieces, size)
    && forall i :: 0 <= i < |groups| - 1 ==> IsFull(groups, i, size)
  }

  ghost predicate IsFull(groups: seq<seq<string>>, i: nat, size: nat)
    requires i + 1 < |groups| && groups[i + 1] != []
  {
    |JoinGroup(groups[i] + [groups[i + 1][0]])| > size
  }

  lemma TailIsGreedy(groups: seq<seq<string>>, pieces: seq<string>, size: nat)
    requires IsGreedy(groups, pieces, size) && groups != []
    ensures |groups[0]| <= |pieces|
    ensures pieces[..|groups[0]|] == groups[0]
    ensures IsGreedy(groups[1..], pieces[|groups[0]|..], size)
  {
    forall i | 0 <= i < |groups[1..]| - 1
      ensures IsFull(groups[1..], i, size)
    {
      assert IsFull(groups, i + 1, size);
    }
  }

  /** A group that fits has no proper prefix that a greedy grouping would stop at. */
  lemma GreedyTakesAtLeast(groups: seq<seq<string>>, pieces: seq<string>, size: nat, taken: nat)
    requires IsGreedy(groups, pieces, size) && groups != []
    requires 0 < taken <= |pieces| && Width(pieces[..taken]) <= size + |JOIN|
    ensures taken <= |groups[0]|
  {
    TailIsGreedy(groups, pieces, size);
    var g := groups[0];
    if |g| < taken {
      assert groups[1..] != [] && IsFull(groups, 0, size);
      var next := groups[1][0];
      assert Flatten(groups[1..]) == groups[1] + Flatten(groups[1..][1..]);
      assert pieces[|g|..][0] == next;
      assert pieces[..taken] == (g + [next]) + pieces[|g| + 1..taken];
      WidthAppend(g + [next], pieces[|g| + 1..taken]);
      JoinedLength(g + [next]);
    }
  }

  /** Greedy stays ahead: starting `k` pieces late never costs an extra group. */
  lemma {:induction false} GreedyStaysAhead(groups: seq<seq<string>>, others: seq<seq<string>>,
                                            pieces: seq<string>, size: nat, k: nat)
    requires k <= |pieces| && IsGreedy(groups, pieces[k..], size) && IsGrouping(others, pieces, size)
    ensures |groups| <= |others|
    decreases |others|
  {
    hide JoinGroup, Width;
    if groups != [] {
      TailIsGreedy(groups, pieces[k..], size);
      var h := others[0];
      assert pieces == h + Flatten(others[1..]);
      assert IsGrouping(others[1..], pieces[|h|..], size);
      if |h| <= k {
        assert pieces[k..] == pieces[|h|..][k - |h|..];
        GreedyStaysAhead(groups, others[1..], pieces[|h|..], size, k - |h|);
      } else {
        WidthAppend(h[..k], h[k..]);
        assert h == h[..k] + h[k..];
        JoinedLength(h);
        assert pieces[k..][..|h| - k] == h[k..];
        GreedyTakesAtLeast(groups, pieces[k..], size, |h| - k);
        var m := k + |groups[0]| - |h|;
        assert pieces[k..][|groups[0]|..] == pieces[|h|..][m..];
        GreedyStaysAhead(groups[1..], others[1..], pieces[|h|..], size, m);
      }
    }
  }

  /** Greedy packing uses the fewest chunks any order-preserving packing can. */
  lemma GreedyIsOptimal(groups: seq<seq<string>>, others: seq<seq<string>>, pieces: seq<string>, size: nat)
    requires IsGreedy(groups, pieces, size) && IsGrouping(others, pieces, size)
    ensures |groups| <= |others|
  {
    assert pieces[0..] == pieces;
    GreedyStaysAhead(groups, others, pieces, size, 0);
  }

  /** There is only one greedy packing, so `IsGreedy` pins the chunks down. */
  lemma {:induction false} GreedyIsUnique(a: seq<seq<string>>, b: seq<seq<string>>, pieces: seq<string>, size: nat)
    requires IsGreedy(a, pieces, size) && IsGreedy(b, pieces, size)
    ensures a == b
  {
    if a != [] && b != [] {
      TailIsGreedy(a, pieces, size);
      TailIsGreedy(b, pieces, size);
      JoinedLength(a[0]);
      JoinedLength(b[0]);
      GreedyTakesAtLeast(a, pieces, size, |b[0]|);
      GreedyTakesAtLeast(b, pieces, size, |a[0]|);
      GreedyIsUnique(a[1..], b[1..], pieces[|a[0]|..], size);
      assert a == [a[0]] + a[1..] && b == [b[0]] + b[1..];
    }
  }

  lemma JoinOneMore(group: seq<string>, piece: string)
    requires group != []
    ensures JoinGroup(group + [piece]) == JoinGroup(group) + JOIN + piece
  {
    assert (group + [piece])[..|group|] == group;
  }

  lemma StartGroup(piece: string, size: nat) returns (next: seq<seq<string>>)
    requires |piece| <= size
    ensures next == [[piece]] && IsGreedy(next, [piece], size)
  {
    next := [[piece]];
    assert Flatten(next) == [piece] + Flatten(next[1..]);
  }

  /** Closing the current group on a piece that does not fit keeps the packing greedy. */
  lemma CloseGroup(groups: seq<seq<string>>, done: seq<string>, piece: string, size: nat)
    returns (next: seq<seq<string>>)
    requires IsGreedy(groups, done, size) && groups != []
    requires |piece| <= size && |JoinGroup(groups[|groups| - 1] + [piece])| > size
    ensures next == groups + [[piece]] && next[..|groups|] == groups
    ensures IsGreedy(next, done + [piece], size)
  {
    next := groups + [[piece]];
    var single := StartGroup(piece, size);
    FlattenAppend(groups, single);
    forall i | 0 <= i < |next| - 1
      ensures IsFull(next, i, size)
    {
      if i < |groups| - 1 {
        assert IsFull(groups, i, size);
      }
    }
  }

  /** Adding a piece that fits to the current group keeps the packing greedy. */
  lemma GrowGroup(groups: seq<seq<string>>, done: seq<string>, piece: string, size: nat)
    returns (next: seq<seq<string>>)
    requires IsGreedy(groups, done, size) && groups != []
    requires |JoinGroup(groups[|groups| - 1] + [piece])| <= size
    ensures |next| == |groups| && next[..|groups| - 1] == groups[..|groups| - 1]
    ensures next[|next| - 1] == groups[|groups| - 1] + [piece]
    ensures IsGreedy(next, done + [piece], size)
  {
    var init, last := groups[..|groups| - 1], groups[|groups| - 1];
    next := init + [last + [piece]];
    assert groups == init + [last];
    hide IsFull, JoinGroup, Flatten;
    NonEmptyGroups(groups, done, size);
    hide IsGrouping;
    GrownIsGrouping(init, last, done, piece, size);
    GrownIsFull(init, last, piece, size);
  }

  lemma GrownIsFull(init: seq<seq<string>>, last: seq<string>, piece: string, size: nat)
    requires last != [] && forall i :: 0 <= i < |init| ==> init[i] != []
    requires forall i :: 0 <= i < |init| ==> IsFull(init + [last], i, size)
    ensures forall i :: 0 <= i < |init| ==> IsFull(init + [last + [piece]], i, size)
  {
    hide IsFull;
    StillFull(init + [last], init + [last + [piece]], size);
  }

  lemma NonEmptyGroups(groups: seq<seq<string>>, done: seq<string>, size: nat)
    requires IsGrouping(groups, done, size)
    ensures forall i :: 0 <= i < |groups| ==> groups[i] != []
  {
  }

  lemma GrownIsGrouping(init: seq<seq<string>>, last: seq<string>, done: seq<string>, piece: string, size: nat)
    requires IsGrouping(init + [last], done, size) && |JoinGroup(last + [piece])| <= size
    ensures IsGrouping(init + [last + [piece]], done + [piece], size)
  {
    FlattenGrown(init, last, piece);
    hide Flatten, JoinGroup;
    var groups, next := init + [last], init + [last + [piece]];
    forall i | 0 <= i < |next|
      ensures next[i] != [] && |JoinGroup(next[i])| <= size
    {
      assert i < |init| ==> next[i] == groups[i];
    }
  }

  lemma FlattenGrown<T>(init: seq<seq<T>>, last: seq<T>, x: T)
    ensures Flatten(init + [last + [x]]) == Flatten(init + [last]) + [x]
  {
    FlattenLast(init, last);
    FlattenLast(init, last + [x]);
    hide Flatten;
    var f := Flatten(init);
    assert f + (last + [x]) == (f + last) + [x];
  }

  /** Whether a group is full is settled by it and the first piece of the next. */
  lemma StillFull(groups: seq<seq<string>>, next: seq<seq<string>>, size: nat)
    requires |next| == |groups| && forall i :: 0 <= i < |groups| ==> groups[i] != [] && next[i] != [] && next[i][0] == groups[i][0]
    requires forall i :: 0 <= i < |groups| - 1 ==> next[i] == groups[i] && IsFull(groups, i, size)
    ensures forall i :: 0 <= i < |next| - 1 ==> IsFull(next, i, size)
  {
    hide JoinGroup;
    forall i | 0 <= i < |next| - 1
      ensures IsFull(next, i, size)
    {
      assert IsFull(groups, i, size);
    }
  }

  ghost predicate AreChunks(chunks: seq<string>, groups: seq<seq<string>>) {
    && |chunks| == |groups|
    && forall i :: 0 <= i < |groups| ==> chunks[i] == JoinGroup(groups[i])
  }

  /** The loop's state: finished chunks, and `current`, which joins the last group. */
  ghost predicate Packing(chunks: seq<string>, current: string, groups: seq<seq<string>>, done: seq<string>, size: nat) {
    && IsGreedy(groups, done, size)
    && (if groups == [] then chunks == [] && current == ""
        else
          && AreChunks(chunks, groups[..|groups| - 1])
          && current == JoinGroup(groups[|groups| - 1])
          && current != "")
  }

  lemma PackFirst(chunks: seq<string>, groups: seq<seq<string>>, pieces: seq<string>, i: nat, size: nat)
    returns (next: seq<seq<string>>)
    requires i < |pieces| && Packing(chunks, "", groups, pieces[..i], size) && 0 < |pieces[i]| <= size
    ensures Packing(chunks, pieces[i], next, pieces[..i + 1], size)
  {
    next := StartGroup(pieces[i], size);
    assert pieces[..i + 1] == [pieces[i]];
  }

  lemma PackOntoCurrent(chunks: seq<string>, current: string, groups: seq<seq<string>>,
                        pieces: seq<string>, i: nat, size: nat)
    returns (next: seq<seq<string>>)
    requires i < |pieces| && Packing(chunks, current, groups, pieces[..i], size) && current != ""
    requires |current| + |JOIN| + |pieces[i]| <= size
    ensures Packing(chunks, current + JOIN + pieces[i], next, pieces[..i + 1], size)
  {
    JoinOneMore(groups[|groups| - 1], pieces[i]);
    next := GrowGroup(groups, pieces[..i], pieces[i], size);
    assert pieces[..i + 1] == pieces[..i] + [pieces[i]];
  }

  lemma PackIntoNext(chunks: seq<string>, current: string, groups: seq<seq<string>>,
                     pieces: seq<string>, i: nat, size: nat)
    returns (next: seq<seq<string>>)
    requires i < |pieces| && Packing(chunks, current, groups, pieces[..i], size) && current != ""
    requires 0 < |pieces[i]| <= size < |current| + |JOIN| + |pieces[i]|
    ensures Packing(chunks + [current], pieces[i], next, pieces[..i + 1], size)
  {
    JoinOneMore(groups[|groups| - 1], pieces[i]);
    next := CloseGroup(groups, pieces[..i], pieces[i], size);
    assert pieces[..i + 1] == pieces[..i] + [pieces[i]];
  }

  lemma PackingDone(chunks: seq<string>, current: string, groups: seq<seq<string>>, pieces: seq<string>, size: nat)
    requires Packing(chunks, current, groups, pieces, size)
    ensures IsGreedy(groups, pieces, size)
    ensures AreChunks(if current == "" then chunks else chunks + [current], groups)
  {
    hide IsGreedy, JoinGroup;
    if current != "" {
      assert groups == groups[..|groups| - 1] + [groups[|groups| - 1]];
    }
  }

  /** The chunks of the one greedy packing. */
  ghost predicate ArePacked(chunks: seq<string>, pieces: seq<string>, size: nat) {
    exists groups :: IsGreedy(groups, pieces, size) && AreChunks(chunks, groups)
  }

  method Pack(pieces: seq<string>, size: nat) returns (chunks: seq<string>, ghost groups: seq<seq<string>>)
    requires forall p :: p in pieces ==> 0 < |p| <= size
    ensures IsGreedy(groups, pieces, size) && AreChunks(chunks, groups)
    ensures ArePacked(chunks, pieces, size)
  {
    chunks, groups := [], [];
    var current := "";
    for i := 0 to |pieces|
      invariant Packing(chunks, current, groups, pieces[..i], size)
    {
      var piece := pieces[i];
      if current == "" {
        groups := PackFirst(chunks, groups, pieces, i, size);
        current := piece;
      } else if |current| + |JOIN| + |piece| <= size {
        groups := PackOntoCurrent(chunks, current, groups, pieces, i, size);
        current := current + JOIN + piece;
      } else {
        groups := PackIntoNext(chunks, current, groups, pieces, i, size);
        chunks := chunks + [current];
        current := piece;
      }
    }
    assert pieces[..|pieces|] == pieces;
    PackingDone(chunks, current, groups, pieces, size);
    if current != "" {
      chunks := chunks + [current];
    }
  }

  /** Blank paragraphs are skipped. */
  function Kept(paras: seq<string>): seq<string> {
    if paras == [] then []
    else
      var last := paras[|paras| - 1];
      Kept(paras[..|paras| - 1]) + (if last == "" then [] else [last])
  }

  /** The block of every kept paragraph, in order. */
  ghost predicate AreBlocks(kept: seq<string>, blocks: seq<seq<string>>, size: nat, overlap: nat)
    requires overlap < size
  {
    && |blocks| == |kept|
    && forall k :: 0 <= k < |kept| ==> kept[k] != "" && IsBlock(kept[k], blocks[k], size, overlap)
  }

  lemma {:induction false} PiecesBounded(kept: seq<string>, blocks: seq<seq<string>>, size: nat, overlap: nat)
    requires overlap < size && AreBlocks(kept, blocks, size, overlap)
    ensures forall p :: p in Flatten(blocks) ==> 0 < |p| <= size
  {
    if blocks != [] {
      BlockBounds(kept[0], blocks[0], size, overlap);
      PiecesBounded(kept[1..], blocks[1..], size, overlap);
    }
  }

  /** The pieces every kept paragraph gives. */
  method CutAll(paras: seq<string>, size: nat, overlap: nat) returns (pieces: seq<string>, ghost blocks: seq<seq<string>>)
    requires overlap < size
    ensures AreBlocks(Kept(paras), blocks, size, overlap) && pieces == Flatten(blocks)
  {
    hide IsBlock;
    pieces, blocks := [], [];
    for i := 0 to |paras|
      invariant AreBlocks(Kept(paras[..i]), blocks, size, overlap)
      invariant pieces == Flatten(blocks)
    {
      var para := paras[i];
      assert paras[..i + 1][..i] == paras[..i];
      if para != "" {
        var block := CutOne(para, size, overlap);
        FlattenLast(blocks, block);
        pieces := pieces + block;
        blocks := blocks + [block];
      }
    }
    assert paras[..|paras|] == paras;
  }

  method CutOne(para: string, size: nat, overlap: nat) returns (block: seq<string>)
    requires overlap < size
    ensures IsBlock(para, block, size, overlap)
  {
    if |para| <= size {
      return [para];
    }
    block := Windows(para, size, overlap);
  }

  /** `chunks` is what the text comes to. */
  ghost predicate AreChunksOf(text: string, size: nat, overlap: nat, chunks: seq<string>)
    requires overlap < size
  {
    exists blocks, groups ::
      AreBlocks(Kept(ParagraphsOf(text)), blocks, size, overlap) && IsGreedy(groups, Flatten(blocks), size) && AreChunks(chunks, groups)
  }

  lemma {:induction false} StepsApart(a: nat, b: nat, step: nat)
    requires a <= b
    ensures a * step <= b * step
    decreases b - a
  {
    if a < b {
      StepsApart(a, b - 1, step);
      assert b * step == (b - 1) * step + step;
    }
  }

  lemma ChunksOf(text: string, size: nat, overlap: nat, blocks: seq<seq<string>>, groups: seq<seq<string>>, chunks: seq<string>)
    requires overlap < size && AreBlocks(Kept(ParagraphsOf(text)), blocks, size, overlap)
    requires IsGreedy(groups, Flatten(blocks), size) && AreChunks(chunks, groups)
    ensures AreChunksOf(text, size, overlap, chunks)
  {
  }

  /** A paragraph has only one block of pieces. */
  lemma BlockIsUnique(para: string, a: seq<string>, b: seq<string>, size: nat, overlap: nat)
    requires overlap < size && IsBlock(para, a, size, overlap) && IsBlock(para, b, size, overlap)
    ensures a == b
  {
    if |para| > size {
      var step := size - overlap;
      if |a| < |b| {
        StepsApart(|a|, |b| - 1, step);
      } else if |b| < |a| {
        StepsApart(|b|, |a| - 1, step);
      }
      forall j | 0 <= j < |a|
        ensures a[j] == b[j]
      {
        assert IsWindowAt(para, a[j], j * step, size) && IsWindowAt(para, b[j], j * step, size);
      }
    }
  }

  /** A text has only one chunking, so `AreChunksOf` says everything about it. */
  lemma ChunksAreUnique(text: string, size: nat, overlap: nat, a: seq<string>, b: seq<string>)
    requires overlap < size && AreChunksOf(text, size, overlap, a) && AreChunksOf(text, size, overlap, b)
    ensures a == b
  {
    hide IsGreedy, IsBlock, ParagraphsOf;
    var kept := Kept(ParagraphsOf(text));
    var blocksA, groupsA :|
      AreBlocks(kept, blocksA, size, overlap) && IsGreedy(groupsA, Flatten(blocksA), size) && AreChunks(a, groupsA);
    var blocksB, groupsB :|
      AreBlocks(kept, blocksB, size, overlap) && IsGreedy(groupsB, Flatten(blocksB), size) && AreChunks(b, groupsB);
    forall k | 0 <= k < |kept|
      ensures blocksA[k] == blocksB[k]
    {
      BlockIsUnique(kept[k], blocksA[k], blocksB[k], size, overlap);
    }
    assert blocksA == blocksB;
    GreedyIsUnique(groupsA, groupsB, Flatten(blocksA), size);
  }

  /** The whole of `chunk_text`. The ghost results are the evidence: which pieces each
      paragraph gave, and which pieces each chunk joins. */
  method ChunkText(text: string, size: int, overlap: int)
    returns (r: Result<seq<string>, string>, ghost blocks: seq<seq<string>>, ghost groups: seq<seq<string>>)
    ensures r.Err? <==> size <= 0 || overlap < 0 || overlap >= size
    ensures r.Ok? ==>
              && AreBlocks(Kept(ParagraphsOf(text)), blocks, size, overlap)
              && (forall k :: 0 <= k < |blocks| ==> Rebuild(blocks[k], overlap) == Kept(ParagraphsOf(text))[k])
    ensures r.Ok? ==> IsGreedy(groups, Flatten(blocks), size) && AreChunks(r.value, groups)
    ensures r.Ok? ==> forall c :: c in r.value ==> 0 < |c| <= size
    ensures r.Ok? ==> forall others :: IsGrouping(others, Flatten(blocks), size) ==> |r.value| <= |others|
    ensures r.Ok? ==> AreChunksOf(text, size, overlap, r.value)
    // When no paragraph is cut, the chunks hold the text, white space aside.
    ensures r.Ok? && (forall p :: p in ParagraphsOf(text) ==> |p| <= size) ==> Visible(Concat(r.value)) == Visible(text)
  {
    hide AreChunksOf, Visible, Split, IsSpace;
    blocks, groups := [], [];
    if size <= 0 {
      return Err("size must be positive"), blocks, groups;
    }
    if !(0 <= overlap < size) {
      return Err("overlap must be >= 0 and < size"), blocks, groups;
    }
    var stripped := Strip(text);
    if stripped == "" {
      NothingToChunk(text);
      NothingIsPacked(size);
      ParagraphsKeepText(text);
      ChunksOf(text, size, overlap, [], [], []);
      return Ok([]), [], [];
    }
    var paras := StripAll(Split(stripped));
    var pieces;
    pieces, blocks := CutAll(paras, size, overlap);
    PiecesBounded(Kept(paras), blocks, size, overlap);
    var chunks;
    chunks, groups := Pack(pieces, size);
    BlocksRebuild(Kept(paras), blocks, size, overlap);
    GreedyIsShort(groups, chunks, pieces, size);
    ChunksOf(text, size, overlap, blocks, groups, chunks);
    if forall p :: p in paras ==> |p| <= size {
      UncutKeepsText(text, size, overlap, blocks, groups, chunks);
    }
    return Ok(chunks), blocks, groups;
  }

  lemma BlocksRebuild(kept: seq<string>, blocks: seq<seq<string>>, size: nat, overlap: nat)
    requires overlap < size && AreBlocks(kept, blocks, size, overlap)
    ensures forall k :: 0 <= k < |blocks| ==> Rebuild(blocks[k], overlap) == kept[k]
  {
    forall k | 0 <= k < |blocks|
      ensures Rebuild(blocks[k], overlap) == kept[k]
    {
      BlockBounds(kept[k], blocks[k], size, overlap);
    }
  }

  /** The chunks of a greedy packing fit, none is empty, and there are as few as can be. */
  lemma GreedyIsShort(groups: seq<seq<string>>, chunks: seq<string>, pieces: seq<string>, size: nat)
    requires IsGreedy(groups, pieces, size) && AreChunks(chunks, groups)
    requires forall p :: p in pieces ==> 0 < |p|
    ensures forall c :: c in chunks ==> 0 < |c| <= size
    ensures forall others :: IsGrouping(others, pieces, size) ==> |chunks| <= |others|
  {
    ChunksNonEmpty(groups, pieces, size);
    forall others | IsGrouping(others, pieces, size)
      ensures |groups| <= |others|
    {
      GreedyIsOptimal(groups, others, pieces, size);
    }
  }

  lemma NothingToChunk(text: string)
    requires Strip(text) == ""
    ensures Kept(ParagraphsOf(text)) == [] && Concat(ParagraphsOf(text)) == ""
  {
    assert Split("") == [""];
    assert Strip("") == "";
    assert StripAll([""]) == [""];
    assert Concat([""]) == "" + Concat([""][1..]);
  }

  lemma NothingIsPacked(size: nat)
    ensures Flatten<string>([]) == [] && IsGreedy([], [], size) && AreChunks([], [])
  {
  }

  // ------------------------------------------------------------ nothing visible is lost

  lemma {:induction false} KeptKeeps(paras: seq<string>)
    ensures Concat(Kept(paras)) == Concat(paras)
  {
    if paras != [] {
      var init, last := paras[..|paras| - 1], paras[|paras| - 1];
      KeptKeeps(init);
      assert paras == init + [last];
      ConcatSnoc(init, last);
      ConcatSnoc(Kept(init), last);
      assert Concat(init) + "" == Concat(init) && Kept(init) + [] == Kept(init);
    }
  }

  lemma {:induction false} JoinKeeps(group: seq<string>)
    ensures Visible(JoinGroup(group)) == Visible(Concat(group))
  {
    hide Visible, IsSpace;
    if |group| == 1 {
      ConcatCons(group[0], []);
      assert [group[0]] + [] == group && group[0] + Concat([]) == group[0];
    } else if |group| > 1 {
      var init, last := group[..|group| - 1], group[|group| - 1];
      JoinKeeps(init);
      ConcatSnoc(init, last);
      assert group == init + [last];
      VisibleAppend(JoinGroup(init) + JOIN, last);
      VisibleAppend(JoinGroup(init), JOIN);
      VisibleAppend(Concat(init), last);
      JoinIsBlank();
      assert Visible(JoinGroup(init)) + "" == Visible(JoinGroup(init));
    }
  }

  lemma ConcatSnoc(init: seq<string>, last: string)
    ensures Concat(init + [last]) == Concat(init) + last
  {
    ConcatAppend(init, [last]);
    ConcatCons(last, []);
    assert [last] + [] == [last] && last + Concat([]) == last;
  }

  lemma JoinIsBlank()
    ensures Visible(JOIN) == ""
  {
    VisibleOfSpaces(JOIN);
  }

  /** Joining adds only white space: the chunks hold what their pieces do. */
  lemma {:induction false} ChunksKeepPieces(chunks: seq<string>, groups: seq<seq<string>>)
    requires AreChunks(chunks, groups)
    ensures Visible(Concat(chunks)) == Visible(Concat(Flatten(groups)))
  {
    hide Visible, IsSpace, JoinGroup;
    if groups != [] {
      ChunksKeepPieces(chunks[1..], groups[1..]);
      JoinKeeps(groups[0]);
      ConcatAppend(groups[0], Flatten(groups[1..]));
      VisibleAppend(Concat(groups[0]), Concat(Flatten(groups[1..])));
      VisibleAppend(chunks[0], Concat(chunks[1..]));
    }
  }

  lemma {:induction false} UncutBlocks(kept: seq<string>, blocks: seq<seq<string>>, size: nat, overlap: nat)
    requires overlap < size && AreBlocks(kept, blocks, size, overlap) && forall p :: p in kept ==> |p| <= size
    ensures Flatten(blocks) == kept
  {
    if blocks != [] {
      assert kept[0] in kept && blocks[0] == [kept[0]];
      UncutBlocks(kept[1..], blocks[1..], size, overlap);
      assert kept == [kept[0]] + kept[1..];
    }
  }

  lemma {:induction false} KeptMember(paras: seq<string>, p: string)
    requires p in Kept(paras)
    ensures p in paras
  {
    var init, last := paras[..|paras| - 1], paras[|paras| - 1];
    assert paras == init + [last];
    if p in Kept(init) {
      KeptMember(init, p);
    }
  }

  /** A text none of whose paragraphs is too long is all there in its chunks, white space aside. */
  lemma UncutKeepsText(text: string, size: nat, overlap: nat, blocks: seq<seq<string>>, groups: seq<seq<string>>, chunks: seq<string>)
    requires overlap < size && AreBlocks(Kept(ParagraphsOf(text)), blocks, size, overlap)
    requires forall p :: p in ParagraphsOf(text) ==> |p| <= size
    requires Flatten(groups) == Flatten(blocks) && AreChunks(chunks, groups)
    ensures Visible(Concat(chunks)) == Visible(text)
  {
    hide Visible, ParagraphsOf, AreChunks;
    forall p | p in Kept(ParagraphsOf(text))
      ensures |p| <= size
    {
      KeptMember(ParagraphsOf(text), p);
    }
    UncutBlocks(Kept(ParagraphsOf(text)), blocks, size, overlap);
    KeptKeeps(ParagraphsOf(text));
    ChunksKeepPieces(chunks, groups);
    ParagraphsKeepText(text);
  }

  function RebuildAll(blocks: seq<seq<string>>, overlap: nat): (r: seq<string>)
    ensures |r| == |blocks| && forall k :: 0 <= k < |blocks| ==> r[k] == Rebuild(blocks[k], overlap)
  {
    seq(|blocks|, k requires 0 <= k < |blocks| => Rebuild(blocks[k], overlap))
  }

  /** Cut or not: with the overlaps dropped again, the pieces hold the whole text, white space aside. */
  lemma BlocksKeepText(text: string, blocks: seq<seq<string>>, size: nat, overlap: nat)
    requires overlap < size && AreBlocks(Kept(ParagraphsOf(text)), blocks, size, overlap)
    ensures Visible(Concat(RebuildAll(blocks, overlap))) == Visible(text)
  {
    hide Visible, ParagraphsOf, IsBlock, Rebuild;
    BlocksRebuild(Kept(ParagraphsOf(text)), blocks, size, overlap);
    assert RebuildAll(blocks, overlap) == Kept(ParagraphsOf(text));
    KeptKeeps(ParagraphsOf(text));
    ParagraphsKeepText(text);
  }

  lemma {:induction false} ChunksNonEmpty(groups: seq<seq<string>>, pieces: seq<string>, size: nat)
    requires IsGrouping(groups, pieces, size)
    requires forall p :: p in pieces ==> 0 < |p|
    ensures forall i :: 0 <= i < |groups| ==> |JoinGroup(groups[i])| > 0
  {
    if groups != [] {
      assert groups[0][0] in Flatten(groups);
      JoinedLength(groups[0]);
      assert |groups[0][0]| > 0;
      ChunksNonEmpty(groups[1..], pieces[|groups[0]|..], size);
    }
  }
}
