/** Folding of undersized blocks into a same-file neighbour (common/chunk.py). */
module Chunk {
  import opened Seqs
  import opened TextNodes

  /** The blank line that separates the two texts of a merged block. */
  const Separator := "\n\n"

  /** Two texts joined by a blank line. */
  function Joined(a: string, b: string): string
  {
    a + Separator + b
  }

  /** `merge_nodes(node1, node2)`: a fresh node whose text is the two metadata-free
      contents joined by a blank line, with `node1`'s metadata and relationships; every
      other attribute of the fresh node, such as its excluded keys, has its default. */
  function MergeNodes(a: TextNode, b: TextNode): (r: TextNode)
    ensures r.metadata == a.metadata && r.relationships == a.relationships && r.excludedEmbedKeys == []
    ensures var n := |Content(a)|;
      |r.text| == n + 2 + |Content(b)| && r.text[..n] == Content(a) &&
      r.text[n..n + 2] == "\n\n" && r.text[n + 2..] == Content(b)
  {
    TextNode(Joined(Content(a), Content(b)), a.metadata, a.relationships, [])
  }

  /** `nodes.pop(k)` */
  function Pop<T>(s: seq<T>, k: nat): (r: seq<T>)
    requires k < |s|
    ensures |r| == |s| - 1
    ensures forall m {:trigger r[m]} :: 0 <= m < k ==> r[m] == s[m]
    ensures forall m :: k <= m < |r| ==> r[m] == s[m + 1]
  {
    s[..k] + s[k + 1..]
  }

  /** `nodes[k] = merge_nodes(nodes[k], nodes[k + 1]); nodes.pop(k + 1)`: the merge
      step; it touches only slots `k` and `k + 1`. */
  function MergeAt(nodes: seq<TextNode>, k: nat): (r: seq<TextNode>)
    requires k + 1 < |nodes|
    ensures |r| == |nodes| - 1
    ensures r[k] == MergeNodes(nodes[k], nodes[k + 1])
    ensures forall m {:trigger r[m]} :: 0 <= m < k ==> r[m] == nodes[m]
    ensures forall m :: k < m < |r| ==> r[m] == nodes[m + 1]
  {
    Pop(nodes[k := MergeNodes(nodes[k], nodes[k + 1])], k + 1)
  }

  /** `out` is `nodes` after the merge step at `k`, described slot by slot. */
  ghost predicate MergedAt(nodes: seq<TextNode>, k: nat, out: seq<TextNode>)
  {
    k + 1 < |nodes| && |out| == |nodes| - 1 &&
    out[k] == MergeNodes(nodes[k], nodes[k + 1]) &&
    (forall m {:trigger out[m]} :: 0 <= m < k ==> out[m] == nodes[m]) &&
    (forall m :: k < m < |out| ==> out[m] == nodes[m + 1])
  }

  predicate AllNamed(nodes: seq<TextNode>)
  {
    forall k :: 0 <= k < |nodes| ==> FileNameKey in nodes[k].metadata
  }

  /** `a.metadata["file_name"] == b.metadata["file_name"]` */
  predicate SameFile(a: TextNode, b: TextNode)
    requires FileNameKey in a.metadata && FileNameKey in b.metadata
  {
    a.metadata[FileNameKey] == b.metadata[FileNameKey]
  }

  /** What one iteration of the scan does at index `i`. */
  datatype Action = Advance | MergeIntoPrevious | MergeWithNext

  /** The decision taken at index `i`: an undersized block merges into a same-file
      neighbour, preferring the previous one when it has no more tokens than the next. */
  function Decide(nodes: seq<TextNode>, i: nat, minSize: int, tokens: string -> nat): (a: Action)
    requires i < |nodes| && AllNamed(nodes)
    ensures a == MergeIntoPrevious ==>
      0 < i && SameFile(nodes[i - 1], nodes[i]) && tokens(Content(nodes[i])) < minSize
    ensures a == MergeWithNext ==>
      i + 1 < |nodes| && SameFile(nodes[i], nodes[i + 1]) && tokens(Content(nodes[i])) < minSize
    ensures a == Advance <==>
      tokens(Content(nodes[i])) >= minSize ||
      ((i == 0 || !SameFile(nodes[i - 1], nodes[i])) &&
       (i + 1 == |nodes| || !SameFile(nodes[i], nodes[i + 1])))
    ensures tokens(Content(nodes[i])) < minSize && 0 < i && i + 1 < |nodes| &&
            SameFile(nodes[i - 1], nodes[i]) && SameFile(nodes[i], nodes[i + 1]) ==>
      (a == MergeIntoPrevious <==> tokens(Content(nodes[i - 1])) <= tokens(Content(nodes[i + 1])))
  {
    var curr := nodes[i];
    if tokens(Content(curr)) >= minSize then Advance
    else
      var prevMergeable := i > 0 && SameFile(nodes[i - 1], curr);
      var nextMergeable := i < |nodes| - 1 && SameFile(nodes[i + 1], curr);
      if prevMergeable && nextMergeable then
        if tokens(Content(nodes[i - 1])) <= tokens(Content(nodes[i + 1])) then MergeIntoPrevious
        else MergeWithNext
      else if prevMergeable then MergeIntoPrevious
      else if nextMergeable then MergeWithNext
      else Advance
  }

  // ---------------------------------------------------------------------------
  // Specification of the result: a partition of the input into same-file groups

  /** The texts of a group joined by blank lines, in order. */
  function JoinTexts(g: seq<TextNode>): string
    requires |g| > 0
  {
    if |g| == 1 then Content(g[0]) else JoinTexts(g[..|g| - 1]) + Separator + Content(g[|g| - 1])
  }

  /** The block a group of consecutive input blocks becomes: a lone block is kept as it
      is; a larger group is one fresh node carrying its first block's metadata. */
  function Group(g: seq<TextNode>): TextNode
    requires |g| > 0
  {
    if |g| == 1 then g[0] else TextNode(JoinTexts(g), g[0].metadata, g[0].relationships, [])
  }

  predicate OneFile(g: seq<TextNode>)
    requires |g| > 0
  {
    FileNameKey in g[0].metadata &&
    forall m :: 0 <= m < |g| ==> FileNameKey in g[m].metadata && g[m].metadata[FileNameKey] == g[0].metadata[FileNameKey]
  }

  function Flatten(gs: seq<seq<TextNode>>): seq<TextNode>
  {
    if |gs| == 0 then [] else Flatten(gs[..|gs| - 1]) + gs[|gs| - 1]
  }

  /** `out` is `input` cut into consecutive non-empty groups of one file each, with
      group `j` turned into `out[j]`. */
  ghost predicate Grouping(input: seq<TextNode>, gs: seq<seq<TextNode>>, out: seq<TextNode>)
  {
    |gs| == |out| && Flatten(gs) == input &&
    forall j :: 0 <= j < |gs| ==> GroupBecomes(gs[j], out[j])
  }

  /** `g` is a non-empty group of one file and `n` the block it becomes. */
  ghost predicate GroupBecomes(g: seq<TextNode>, n: TextNode)
  {
    |g| > 0 && OneFile(g) && n == Group(g)
  }

  /** The block at index `k` needs no further merge: it is large enough, or neither
      neighbour belongs to its file. */
  predicate Settled(nodes: seq<TextNode>, k: nat, minSize: int, tokens: string -> nat)
    requires k < |nodes| && AllNamed(nodes)
  {
    tokens(Content(nodes[k])) >= minSize ||
    ((k == 0 || !SameFile(nodes[k - 1], nodes[k])) &&
     (k + 1 == |nodes| || !SameFile(nodes[k], nodes[k + 1])))
  }

  /** Appending text never lowers a token count. The tokenizer does not promise this in
      general; the fixed-point property below is stated under it. */
  ghost predicate Monotone(tokens: string -> nat)
  {
    forall a: string, b: string :: tokens(Joined(a, b)) >= tokens(a)
  }

  predicate AllLarge(nodes: seq<TextNode>, minSize: int, tokens: string -> nat)
  {
    forall k :: 0 <= k < |nodes| ==> tokens(Content(nodes[k])) >= minSize
  }

  // ---------------------------------------------------------------------------
  // Lemmas

  lemma {:induction false} JoinTextsAppend(a: seq<TextNode>, b: seq<TextNode>)
    requires |a| > 0 && |b| > 0
    ensures JoinTexts(a + b) == JoinTexts(a) + Separator + JoinTexts(b)
    decreases |b|
  {
    var ab := a + b;
    if |b| == 1 {
      assert ab[..|ab| - 1] == a;
    } else {
      var b' := b[..|b| - 1];
      var last := Content(b[|b| - 1]);
      JoinTextsAppend(a, b');
      assert ab[..|ab| - 1] == a + b' && ab[|ab| - 1] == b[|b| - 1];
      assert JoinTexts(ab) == ((JoinTexts(a) + Separator) + JoinTexts(b')) + Separator + last;
      ConcatAssoc4(JoinTexts(a) + Separator, JoinTexts(b'), Separator, last);
    }
  }

  /** Merging the blocks of two adjacent groups gives the block of the joined group:
      text in document order, metadata and relationships of the earlier group. */
  lemma MergeNodesJoinsGroups(g1: seq<TextNode>, g2: seq<TextNode>)
    requires |g1| > 0 && |g2| > 0
    ensures MergeNodes(Group(g1), Group(g2)) == Group(g1 + g2)
    ensures Content(Group(g1 + g2)) == Content(Group(g1)) + Separator + Content(Group(g2))
  {
    JoinTextsAppend(g1, g2);
    assert (g1 + g2)[0] == g1[0];
  }

  lemma {:induction false} FlattenAppend(a: seq<seq<TextNode>>, b: seq<seq<TextNode>>)
    ensures Flatten(a + b) == Flatten(a) + Flatten(b)
    decreases |b|
  {
    if |b| == 0 {
      assert a + b == a;
    } else {
      var init := b[..|b| - 1];
      FlattenAppend(a, init);
      assert (a + b)[..|a + b| - 1] == a + init && (a + b)[|a + b| - 1] == b[|b| - 1];
      ConcatAssoc(Flatten(a), Flatten(init), b[|b| - 1]);
    }
  }

  function Singletons(s: seq<TextNode>): seq<seq<TextNode>>
  {
    seq(|s|, k requires 0 <= k < |s| => [s[k]])
  }

  /** Before any merge, every block is a group of its own. */
  lemma SingletonGrouping(s: seq<TextNode>)
    requires AllNamed(s)
    ensures Grouping(s, Singletons(s), s)
  {
    FlattenSingletons(s);
  }

  lemma FlattenSingletons(s: seq<TextNode>)
    ensures Flatten(Singletons(s)) == s
  {
    if |s| > 0 {
      var gs := seq(|s|, k requires 0 <= k < |s| => [s[k]]);
      FlattenSingletons(s[..|s| - 1]);
      assert gs[..|s| - 1] == Singletons(s[..|s| - 1]);
    }
  }

  lemma FlattenSingle(x: seq<TextNode>)
    ensures Flatten([x]) == x
  {
    assert [x][..0] == [];
  }

  /** Joining two neighbouring groups does not change the blocks they cover. */
  lemma FlattenFuse(a: seq<seq<TextNode>>, x: seq<TextNode>, y: seq<TextNode>, b: seq<seq<TextNode>>)
    ensures Flatten(a + [x + y] + b) == Flatten(a + [x] + [y] + b)
  {
    FlattenAppend(a + [x] + [y], b);
    FlattenAppend(a + [x], [y]);
    FlattenAppend(a, [x]);
    FlattenAppend(a + [x + y], b);
    FlattenAppend(a, [x + y]);
    FlattenSingle(x);
    FlattenSingle(y);
    FlattenSingle(x + y);
  }

  lemma OneFileJoin(g1: seq<TextNode>, g2: seq<TextNode>)
    requires |g1| > 0 && |g2| > 0 && OneFile(g1) && OneFile(g2)
    requires g1[0].metadata[FileNameKey] == g2[0].metadata[FileNameKey]
    ensures OneFile(g1 + g2)
  {
    var g := g1 + g2;
    forall m | 0 <= m < |g|
      ensures FileNameKey in g[m].metadata && g[m].metadata[FileNameKey] == g[0].metadata[FileNameKey]
    {
      if m >= |g1| { assert g[m] == g2[m - |g1|]; }
    }
  }

  /** Fusing groups `k` and `k + 1` (the merge at `k` followed by `pop(k + 1)`) keeps the
      partition. */
  lemma FuseKeepsGrouping(input: seq<TextNode>, gs: seq<seq<TextNode>>, nodes: seq<TextNode>, k: nat,
                          fused: seq<seq<TextNode>>, out: seq<TextNode>)
    requires Grouping(input, gs, nodes) && AllNamed(nodes)
    requires k + 1 < |nodes| && SameFile(nodes[k], nodes[k + 1])
    requires fused == gs[..k] + [gs[k] + gs[k + 1]] + gs[k + 2..]
    requires MergedAt(nodes, k, out)
    ensures Grouping(input, fused, out)
  {
    FlattenFuse(gs[..k], gs[k], gs[k + 1], gs[k + 2..]);
    assert gs == gs[..k] + [gs[k]] + [gs[k + 1]] + gs[k + 2..];
    MergeNodesJoinsGroups(gs[k], gs[k + 1]);
    assert Group(gs[k]).metadata == gs[k][0].metadata;
    assert Group(gs[k + 1]).metadata == gs[k + 1][0].metadata;
    OneFileJoin(gs[k], gs[k + 1]);
    forall j | 0 <= j < |fused|
      ensures GroupBecomes(fused[j], out[j])
    {
      if j > k { assert fused[j] == gs[j + 1]; }
      else if j < k { assert fused[j] == gs[j]; }
    }
  }

  /** The groups after groups `k` and `k + 1` are joined. */
  ghost function FuseGroups(gs: seq<seq<TextNode>>, k: nat): seq<seq<TextNode>>
    requires k + 1 < |gs|
  {
    gs[..k] + [gs[k] + gs[k + 1]] + gs[k + 2..]
  }

  /** What holds before each iteration of the scan at index `i`. */
  ghost predicate ScanInvariant(input: seq<TextNode>, gs: seq<seq<TextNode>>, nodes: seq<TextNode>,
                                i: nat, minSize: int, tokens: string -> nat)
  {
    i <= |nodes| <= |input| && AllNamed(nodes) && Grouping(input, gs, nodes) &&
    (AllLarge(input, minSize, tokens) ==> nodes == input) &&
    (Monotone(tokens) ==> forall k :: 0 <= k < i ==> Settled(nodes, k, minSize, tokens))
  }

  lemma ScanStarts(input: seq<TextNode>, minSize: int, tokens: string -> nat)
    requires AllNamed(input)
    ensures ScanInvariant(input, Singletons(input), input, 0, minSize, tokens)
  {
    SingletonGrouping(input);
  }

  lemma AdvanceKeepsInvariant(input: seq<TextNode>, gs: seq<seq<TextNode>>, nodes: seq<TextNode>,
                              i: nat, minSize: int, tokens: string -> nat)
    requires ScanInvariant(input, gs, nodes, i, minSize, tokens) && i < |nodes|
    requires Decide(nodes, i, minSize, tokens) == Advance
    ensures ScanInvariant(input, gs, nodes, i + 1, minSize, tokens)
  {
    if Monotone(tokens) {
      assert Settled(nodes, i, minSize, tokens);
      assert forall k :: 0 <= k < i ==> Settled(nodes, k, minSize, tokens);
    }
  }

  lemma MergeKeepsInvariant(input: seq<TextNode>, gs: seq<seq<TextNode>>, nodes: seq<TextNode>,
                            i: nat, minSize: int, tokens: string -> nat, k: nat)
    requires ScanInvariant(input, gs, nodes, i, minSize, tokens) && i < |nodes|
    requires (Decide(nodes, i, minSize, tokens) == MergeIntoPrevious && k + 1 == i) ||
             (Decide(nodes, i, minSize, tokens) == MergeWithNext && k == i)
    ensures k + 1 < |nodes| && k + 1 < |gs|
    ensures ScanInvariant(input, FuseGroups(gs, k), MergeAt(nodes, k), i, minSize, tokens)
  {
    var out := MergeAt(nodes, k);
    assert MergedAt(nodes, k, out);
    FuseKeepsGrouping(input, gs, nodes, k, FuseGroups(gs, k), out);
    MergedAtNamed(nodes, k, out);
    if Monotone(tokens) {
      if k + 1 == i {
        MergeIntoPreviousKeepsSettled(nodes, i, out, minSize, tokens);
      } else {
        MergeKeepsSettledBefore(nodes, k, out, minSize, tokens);
      }
    }
    assert AllLarge(input, minSize, tokens) ==> nodes == input;
  }

  /** `merge_small_chunks(nodes, min_size)`: scan left to right; an undersized block
      merges into a same-file neighbour and the same index is looked at again; otherwise
      the scan moves on.

      The result partitions the input into consecutive same-file groups (so no block
      mixes two files and the text keeps document order), is never longer than the
      input, is the input itself when no block is undersized, and, for a tokenizer that
      never counts fewer tokens after appending text, leaves no block that could still
      merge. */
  method MergeSmallChunks(input: seq<TextNode>, minSize: int, tokens: string -> nat)
    returns (nodes: seq<TextNode>, ghost groups: seq<seq<TextNode>>)
    requires AllNamed(input)
    ensures Grouping(input, groups, nodes)
    ensures AllNamed(nodes)
    ensures |nodes| <= |input|
    ensures AllLarge(input, minSize, tokens) ==> nodes == input
    ensures Monotone(tokens) ==> forall k :: 0 <= k < |nodes| ==> Settled(nodes, k, minSize, tokens)
  {
    nodes := input;
    groups := Singletons(input);
    var i := 0;
    ScanStarts(input, minSize, tokens);
    while i < |nodes|
      invariant ScanInvariant(input, groups, nodes, i, minSize, tokens)
      decreases |nodes| - i
    {
      match Decide(nodes, i, minSize, tokens)
      case MergeIntoPrevious =>
        MergeKeepsInvariant(input, groups, nodes, i, minSize, tokens, i - 1);
        groups := FuseGroups(groups, i - 1);
        nodes := MergeAt(nodes, i - 1);
      case MergeWithNext =>
        MergeKeepsInvariant(input, groups, nodes, i, minSize, tokens, i);
        groups := FuseGroups(groups, i);
        nodes := MergeAt(nodes, i);
      case Advance =>
        AdvanceKeepsInvariant(input, groups, nodes, i, minSize, tokens);
        i := i + 1;
    }
  }

  /** The merge step keeps every block named. */
  lemma MergedAtNamed(nodes: seq<TextNode>, k: nat, out: seq<TextNode>)
    requires MergedAt(nodes, k, out) && AllNamed(nodes)
    ensures AllNamed(out)
  {
    forall m | 0 <= m < |out| ensures FileNameKey in out[m].metadata {
      if m > k { assert out[m] == nodes[m + 1]; }
    }
  }

  /** The merge step at `k` leaves the blocks before `k` settled: they are unchanged,
      and the merged block keeps the metadata of block `k`. */
  lemma MergeKeepsSettledBefore(nodes: seq<TextNode>, k: nat, out: seq<TextNode>, minSize: int, tokens: string -> nat)
    requires MergedAt(nodes, k, out) && AllNamed(nodes) && AllNamed(out)
    requires forall j :: 0 <= j < k ==> Settled(nodes, j, minSize, tokens)
    ensures forall j :: 0 <= j < k ==> Settled(out, j, minSize, tokens)
  {
    forall j | 0 <= j < k ensures Settled(out, j, minSize, tokens) {
      assert Settled(nodes, j, minSize, tokens);
      assert out[j] == nodes[j] && out[j + 1].metadata == nodes[j + 1].metadata;
    }
  }

  /** Merging an undersized block into its settled same-file predecessor gives a large
      block when appending text never lowers the token count, so every block before
      the scan position stays settled. */
  lemma MergeIntoPreviousKeepsSettled(nodes: seq<TextNode>, i: nat, out: seq<TextNode>, minSize: int, tokens: string -> nat)
    requires 0 < i < |nodes| && AllNamed(nodes) && SameFile(nodes[i - 1], nodes[i])
    requires MergedAt(nodes, i - 1, out) && AllNamed(out)
    requires Monotone(tokens) && forall j :: 0 <= j < i ==> Settled(nodes, j, minSize, tokens)
    ensures forall j :: 0 <= j < i ==> Settled(out, j, minSize, tokens)
  {
    MergeKeepsSettledBefore(nodes, i - 1, out, minSize, tokens);
    assert Settled(nodes, i - 1, minSize, tokens);
    assert tokens(Content(nodes[i - 1])) >= minSize;
    var merged := Joined(Content(nodes[i - 1]), Content(nodes[i]));
    assert Content(out[i - 1]) == merged;
    assert tokens(merged) >= tokens(Content(nodes[i - 1]));
    assert Settled(out, i - 1, minSize, tokens);
    forall j | 0 <= j < i ensures Settled(out, j, minSize, tokens) {
      if j < i - 1 {
        assert Settled(out, j, minSize, tokens);
      }
    }
  }
}
