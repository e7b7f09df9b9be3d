/** What `retriever` does with the nodes the vector search returns (common/retrieve.py):
    optional similarity cutoff, optional rerank of sanitised copies, deduplication by
    paragraph and rendering of the numbered paragraph bundle. */
module Retrieve {
  import opened Wrappers
  import opened Seqs
  import opened Decimal
  import opened TextNodes

  /** A search hit: the node id, the node's text and its metadata. */
  datatype ScoredNode = ScoredNode(nodeId: string, text: string, metadata: Metadata)

  const MaxRerankChars := 30000
  const NotFound := "Information Not Found"
  const ListHeader := "List Paragraph Related:\n"

  // ---------------------------------------------------------------------------
  // Sanitising the copies sent to the reranker

  predicate IsDash(c: char) { c == '-' }

  /** The characters Python's `\s` matches in a `str` pattern (those `str.isspace` accepts). */
  predicate IsWhitespace(c: char)
  {
    var n := c as int;
    (0x09 <= n <= 0x0D) || (0x1C <= n <= 0x20) || n == 0x85 || n == 0xA0 || n == 0x1680 ||
    (0x2000 <= n <= 0x200A) || n == 0x2028 || n == 0x2029 || n == 0x202F || n == 0x205F || n == 0x3000
  }

  /** No two neighbouring characters both satisfy `p`. */
  predicate NoAdjacent(s: string, p: char -> bool)
  {
    forall k :: 0 <= k < |s| - 1 ==> !(p(s[k]) && p(s[k + 1]))
  }

  /** The characters of `s` outside every run, in order. */
  function Strip(s: string, inRun: char -> bool): string
  {
    if |s| == 0 then "" else (if inRun(s[0]) then "" else [s[0]]) + Strip(s[1..], inRun)
  }

  /** `re.sub(pattern + "+", rep, s)` for a one-character class `inRun`: every maximal
      run of characters of the class becomes the single character `rep`. */
  function CollapseRuns(s: string, inRun: char -> bool, rep: char): (r: string)
    requires inRun(rep)
    ensures |r| <= |s|
    ensures |s| > 0 ==> |r| > 0 && r[0] == (if inRun(s[0]) then rep else s[0])
    ensures forall k :: 0 <= k < |r| && inRun(r[k]) ==> r[k] == rep
    ensures NoAdjacent(r, inRun)
    ensures Strip(r, inRun) == Strip(s, inRun)
  {
    if |s| == 0 then ""
    else if !inRun(s[0]) then [s[0]] + CollapseRuns(s[1..], inRun, rep)
    else if |s| > 1 && inRun(s[1]) then CollapseRuns(s[1..], inRun, rep)
    else [rep] + CollapseRuns(s[1..], inRun, rep)
  }

  /** A text without runs is left as it is. */
  lemma {:induction false} CollapseRunsFixes(t: string, inRun: char -> bool, rep: char)
    requires inRun(rep) && NoAdjacent(t, inRun)
    requires forall k :: 0 <= k < |t| && inRun(t[k]) ==> t[k] == rep
    ensures CollapseRuns(t, inRun, rep) == t
  {
    if |t| > 0 {
      CollapseRunsFixes(t[1..], inRun, rep);
    }
  }

  lemma CollapseRunsIdempotent(s: string, inRun: char -> bool, rep: char)
    requires inRun(rep)
    ensures CollapseRuns(CollapseRuns(s, inRun, rep), inRun, rep) == CollapseRuns(s, inRun, rep)
  {
    CollapseRunsFixes(CollapseRuns(s, inRun, rep), inRun, rep);
  }

  /** One step of `CollapseRuns` on a text that starts with `c`. */
  lemma CollapseStep(c: char, t: string, inRun: char -> bool, rep: char)
    requires inRun(rep)
    ensures CollapseRuns([c] + t, inRun, rep) ==
      if !inRun(c) then [c] + CollapseRuns(t, inRun, rep)
      else if |t| > 0 && inRun(t[0]) then CollapseRuns(t, inRun, rep)
      else [rep] + CollapseRuns(t, inRun, rep)
  {
    assert ([c] + t)[1..] == t;
  }

  /** A character outside the class splits the text: each side is collapsed on its own
      and the character stays where it was. */
  lemma {:induction false} CollapseRunsSplit(a: string, x: char, b: string, inRun: char -> bool, rep: char)
    requires inRun(rep) && !inRun(x)
    ensures CollapseRuns(a + [x] + b, inRun, rep) == CollapseRuns(a, inRun, rep) + [x] + CollapseRuns(b, inRun, rep)
  {
    if |a| == 0 {
      assert a + [x] + b == [x] + b;
      CollapseStep(x, b, inRun, rep);
    } else {
      var tail := a[1..];
      var rest := tail + [x] + b;
      assert a == [a[0]] + tail;
      assert a + [x] + b == [a[0]] + rest;
      assert |rest| > 0 && rest[0] == if |tail| > 0 then tail[0] else x;
      CollapseStep(a[0], rest, inRun, rep);
      CollapseStep(a[0], tail, inRun, rep);
      CollapseRunsSplit(tail, x, b, inRun, rep);
      var head := if !inRun(a[0]) then [a[0]] else if |tail| > 0 && inRun(tail[0]) then [] else [rep];
      ConcatAssoc4(head, CollapseRuns(tail, inRun, rep), [x], CollapseRuns(b, inRun, rep));
    }
  }

  /** A whole run becomes the single replacement character. */
  lemma {:induction false} CollapseRunsOfRun(s: string, inRun: char -> bool, rep: char)
    requires inRun(rep) && |s| > 0
    requires forall k :: 0 <= k < |s| ==> inRun(s[k])
    ensures CollapseRuns(s, inRun, rep) == [rep]
  {
    if |s| > 1 {
      CollapseRunsOfRun(s[1..], inRun, rep);
    }
  }

  /** Collapsing runs of one class, with a replacement outside a second class, cannot
      make two characters of the second class neighbours. */
  lemma {:induction false} CollapseKeepsNoAdjacent(s: string, inRun: char -> bool, rep: char, p: char -> bool)
    requires inRun(rep) && !p(rep) && NoAdjacent(s, p)
    ensures NoAdjacent(CollapseRuns(s, inRun, rep), p)
  {
    if |s| > 0 {
      CollapseKeepsNoAdjacent(s[1..], inRun, rep, p);
    }
  }

  /** `text[:n]` */
  function Truncate(s: string, n: nat): (r: string)
    ensures |r| <= n && |r| <= |s|
    ensures |r| == if |s| <= n then |s| else n
    ensures r == s[..|r|]
  {
    if |s| <= n then s else s[..n]
  }

  /** The text sent to the reranker: runs of `-` collapsed, then runs of whitespace
      collapsed to one space, then cut to 30000 characters. */
  function ShortenText(s: string): (r: string)
    ensures |r| <= MaxRerankChars
    ensures NoAdjacent(r, IsDash) && NoAdjacent(r, IsWhitespace)
    ensures forall k :: 0 <= k < |r| && IsWhitespace(r[k]) ==> r[k] == ' '
    ensures var full := CollapseRuns(CollapseRuns(s, IsDash, '-'), IsWhitespace, ' ');
      |r| == (if |full| <= MaxRerankChars then |full| else MaxRerankChars) && r == full[..|r|]
  {
    var dashes := CollapseRuns(s, IsDash, '-');
    CollapseKeepsNoAdjacent(dashes, IsWhitespace, ' ', IsDash);
    Truncate(CollapseRuns(dashes, IsWhitespace, ' '), MaxRerankChars)
  }

  /** A sanitised copy: same id, shortened text, metadata cleared. */
  function Sanitize(n: ScoredNode): (r: ScoredNode)
    ensures r.nodeId == n.nodeId && r.metadata == map[] && r.text == ShortenText(n.text)
    ensures |r.text| <= MaxRerankChars && |r.text| <= |n.text|
    ensures NoAdjacent(r.text, IsDash) && NoAdjacent(r.text, IsWhitespace)
  {
    ScoredNode(n.nodeId, ShortenText(n.text), map[])
  }

  /** The deep copy and the loop that shortens every copy in place; the nodes passed
      in are values and are not touched. */
  method ShortenNodes(nodes: seq<ScoredNode>) returns (shortNodes: seq<ScoredNode>)
    ensures |shortNodes| == |nodes|
    ensures forall k :: 0 <= k < |nodes| ==> shortNodes[k] == Sanitize(nodes[k])
  {
    shortNodes := nodes;
    for k := 0 to |shortNodes|
      invariant |shortNodes| == |nodes|
      invariant forall m :: 0 <= m < k ==> shortNodes[m] == Sanitize(nodes[m])
      invariant forall m :: k <= m < |nodes| ==> shortNodes[m] == nodes[m]
    {
      var text := CollapseRuns(shortNodes[k].text, IsDash, '-');
      text := CollapseRuns(text, IsWhitespace, ' ');
      shortNodes := shortNodes[k := ScoredNode(shortNodes[k].nodeId, Truncate(text, MaxRerankChars), map[])];
    }
  }

  /** Sanitised copies as a value: what `ShortenNodes` returns. */
  function SanitizedCopies(nodes: seq<ScoredNode>): seq<ScoredNode>
  {
    seq(|nodes|, k requires 0 <= k < |nodes| => Sanitize(nodes[k]))
  }

  // ---------------------------------------------------------------------------
  // Keeping the reranked nodes

  function NodeIds(nodes: seq<ScoredNode>): (ids: seq<string>)
    ensures |ids| == |nodes| && forall k :: 0 <= k < |nodes| ==> ids[k] == nodes[k].nodeId
  {
    seq(|nodes|, k requires 0 <= k < |nodes| => nodes[k].nodeId)
  }

  /** `[node for node in nodes if node.node_id in reranked_ids]`: the original nodes the
      reranker kept, in retrieval order. */
  function FilterByIds(nodes: seq<ScoredNode>, ids: seq<string>): (r: seq<ScoredNode>)
    ensures forall x :: x in r <==> x in nodes && x.nodeId in ids
    ensures forall x :: multiset(r)[x] == if x.nodeId in ids then multiset(nodes)[x] else 0
    ensures IsSubsequence(r, nodes)
  {
    FilterCount(nodes, (n: ScoredNode) => n.nodeId in ids);
    Filter(nodes, (n: ScoredNode) => n.nodeId in ids)
  }

  // ---------------------------------------------------------------------------
  // Deduplication by paragraph

  /** `paragraph_id` is present and non-empty (its truth value in Python). */
  predicate HasParagraphId(n: ScoredNode)
  {
    ParagraphIdKey in n.metadata && n.metadata[ParagraphIdKey] != ""
  }

  function ParagraphId(n: ScoredNode): string
    requires HasParagraphId(n)
  {
    n.metadata[ParagraphIdKey]
  }

  /** How an f-string renders `metadata.get(key)`: the value, or `None` when absent. */
  function GetOrNone(m: Metadata, key: string): string
  {
    if key in m then m[key] else "None"
  }

  /** `full_content`: where the paragraph comes from and its whole text. */
  function Entry(n: ScoredNode): (r: string)
    ensures |r| > 10 && r[..10] == "Position: "
  {
    "Position: " + GetOrNone(n.metadata, "file_path") + GetOrNone(n.metadata, "header_path") +
    "\n\nContent:\n " + GetOrNone(n.metadata, ParagraphFullContentKey)
  }

  function Entries(nodes: seq<ScoredNode>): (r: seq<string>)
    ensures |r| == |nodes| && forall k :: 0 <= k < |nodes| ==> r[k] == Entry(nodes[k])
  {
    seq(|nodes|, k requires 0 <= k < |nodes| => Entry(nodes[k]))
  }

  /** The paragraph ids of the nodes that have one: `seen_ids` after the nodes. */
  function SeenIds(nodes: seq<ScoredNode>): (r: set<string>)
    ensures forall k :: 0 <= k < |nodes| && HasParagraphId(nodes[k]) ==> ParagraphId(nodes[k]) in r
  {
    if |nodes| == 0 then {}
    else
      var last := nodes[|nodes| - 1];
      SeenIds(nodes[..|nodes| - 1]) + (if HasParagraphId(last) then {ParagraphId(last)} else {})
  }

  /** Every id in `SeenIds(nodes)` is the paragraph id of some node. */
  lemma {:induction false} SeenIdsWitness(nodes: seq<ScoredNode>, id: string) returns (k: nat)
    requires id in SeenIds(nodes)
    ensures k < |nodes| && HasParagraphId(nodes[k]) && ParagraphId(nodes[k]) == id
  {
    var init := nodes[..|nodes| - 1];
    if id in SeenIds(init) {
      k := SeenIdsWitness(init, id);
    } else {
      k := |nodes| - 1;
    }
  }

  /** Whether the last node is kept: it has a paragraph id no earlier node had. */
  predicate KeepsLast(nodes: seq<ScoredNode>)
    requires |nodes| > 0
  {
    HasParagraphId(nodes[|nodes| - 1]) && ParagraphId(nodes[|nodes| - 1]) !in SeenIds(nodes[..|nodes| - 1])
  }

  /** The nodes that survive deduplication: each node with a paragraph id that no
      earlier node had. */
  function Dedup(nodes: seq<ScoredNode>): (r: seq<ScoredNode>)
    ensures forall k :: 0 <= k < |r| ==> HasParagraphId(r[k])
    ensures IsSubsequence(r, nodes)
  {
    if |nodes| == 0 then []
    else
      var init, last := nodes[..|nodes| - 1], nodes[|nodes| - 1];
      var kept := Dedup(init);
      assert init + [last] == nodes;
      if KeepsLast(nodes) then
        SubsequenceAppendBoth(kept, init, last);
        kept + [last]
      else
        SubsequenceExtend(kept, init, last);
        kept
  }

  /** Deduplication keeps one node for every paragraph id present... */
  lemma {:induction false} DedupKeepsEveryId(nodes: seq<ScoredNode>)
    ensures SeenIds(Dedup(nodes)) == SeenIds(nodes)
  {
    if |nodes| > 0 {
      var init, last := nodes[..|nodes| - 1], nodes[|nodes| - 1];
      var kept := Dedup(init);
      DedupKeepsEveryId(init);
      if KeepsLast(nodes) {
        var r := kept + [last];
        assert r[..|r| - 1] == kept && r[|r| - 1] == last;
        assert SeenIds(r) == SeenIds(kept) + {ParagraphId(last)};
      }
    }
  }

  /** ...and no paragraph id twice. */
  lemma {:induction false} DedupIdsDistinct(nodes: seq<ScoredNode>)
    ensures forall i, j :: 0 <= i < j < |Dedup(nodes)| ==> ParagraphId(Dedup(nodes)[i]) != ParagraphId(Dedup(nodes)[j])
  {
    if |nodes| > 0 {
      var init, last := nodes[..|nodes| - 1], nodes[|nodes| - 1];
      var kept := Dedup(init);
      DedupIdsDistinct(init);
      if KeepsLast(nodes) {
        DedupKeepsEveryId(init);
        var r := kept + [last];
        assert Dedup(nodes) == r;
        forall i, j | 0 <= i < j < |r| ensures ParagraphId(r[i]) != ParagraphId(r[j]) {
          if j == |r| - 1 {
            assert ParagraphId(kept[i]) in SeenIds(kept);
          } else {
            assert r[i] == kept[i] && r[j] == kept[j];
          }
        }
      }
    }
  }

  /** Nodes that all carry distinct paragraph ids are left as they are. */
  lemma {:induction false} DedupFixes(nodes: seq<ScoredNode>)
    requires forall k :: 0 <= k < |nodes| ==> HasParagraphId(nodes[k])
    requires forall i, j :: 0 <= i < j < |nodes| ==> ParagraphId(nodes[i]) != ParagraphId(nodes[j])
    ensures Dedup(nodes) == nodes
  {
    if |nodes| > 0 {
      var init, last := nodes[..|nodes| - 1], nodes[|nodes| - 1];
      DedupFixes(init);
      if ParagraphId(last) in SeenIds(init) {
        var k := SeenIdsWitness(init, ParagraphId(last));
        assert false;
      }
      assert init + [last] == nodes;
    }
  }

  /** A node whose paragraph id no earlier node had is kept... */
  lemma {:induction false} DedupKeepsFirst(nodes: seq<ScoredNode>, k: nat)
    requires k < |nodes| && HasParagraphId(nodes[k]) && ParagraphId(nodes[k]) !in SeenIds(nodes[..k])
    ensures nodes[k] in Dedup(nodes)
  {
    var init := nodes[..|nodes| - 1];
    if k == |nodes| - 1 {
      assert nodes[..k] == init;
      assert KeepsLast(nodes);
    } else {
      assert init[..k] == nodes[..k] && init[k] == nodes[k];
      DedupKeepsFirst(init, k);
    }
  }

  /** ...and every kept node is such a first occurrence. */
  lemma {:induction false} DedupOnlyFirst(nodes: seq<ScoredNode>, x: ScoredNode) returns (k: nat)
    requires x in Dedup(nodes)
    ensures k < |nodes| && nodes[k] == x && HasParagraphId(x) && ParagraphId(x) !in SeenIds(nodes[..k])
  {
    var init := nodes[..|nodes| - 1];
    if x in Dedup(init) {
      k := DedupOnlyFirst(init, x);
      assert init[..k] == nodes[..k];
    } else {
      k := |nodes| - 1;
      assert nodes[..k] == init;
    }
  }

  lemma DedupIdempotent(nodes: seq<ScoredNode>)
    ensures Dedup(Dedup(nodes)) == Dedup(nodes)
  {
    DedupIdsDistinct(nodes);
    DedupFixes(Dedup(nodes));
  }

  /** The loop over the nodes that builds `chunks` while growing `seen_ids`. */
  method CollectParagraphs(nodes: seq<ScoredNode>) returns (chunks: seq<string>)
    ensures chunks == Entries(Dedup(nodes))
  {
    chunks := [];
    var seenIds: set<string> := {};
    for i := 0 to |nodes|
      invariant seenIds == SeenIds(nodes[..i])
      invariant chunks == Entries(Dedup(nodes[..i]))
    {
      var node := nodes[i];
      var paragraphId: Option<string> := if ParagraphIdKey in node.metadata then Some(node.metadata[ParagraphIdKey]) else None;
      var fullContent := Entry(node);
      ghost var prefix := nodes[..i + 1];
      assert prefix[..i] == nodes[..i] && prefix[i] == node;
      if paragraphId.Some? && paragraphId.value != "" && fullContent != "" && paragraphId.value !in seenIds {
        seenIds := seenIds + {paragraphId.value};
        chunks := chunks + [fullContent];
        assert KeepsLast(prefix);
        assert Entries(Dedup(prefix)) == Entries(Dedup(nodes[..i])) + [fullContent];
      } else {
        assert !KeepsLast(prefix);
      }
    }
    assert nodes[..|nodes|] == nodes;
  }

  // ---------------------------------------------------------------------------
  // Rendering

  /** `<paragraph_{n}>` with the newline before it and the blank line after it. */
  function OpeningTag(n: nat): (t: string)
    ensures |t| == |NatToString(n)| + 15
    ensures t[..12] == "\n<paragraph_" && t[|t| - 3..] == ">\n\n"
    ensures AllDigits(t[12..|t| - 3]) && ParseDigits(t[12..|t| - 3]) == n
  {
    var tag := NatToString(n);
    var t := "\n<paragraph_" + tag + ">\n\n";
    assert t[12..|t| - 3] == tag;
    NatToStringRoundTrip(n);
    t
  }

  /** `</paragraph_{n}>` with the blank lines around it. */
  function ClosingTag(n: nat): (t: string)
    ensures |t| == |NatToString(n)| + 17
    ensures t[..14] == "\n\n</paragraph_" && t[|t| - 3..] == ">\n\n"
    ensures AllDigits(t[14..|t| - 3]) && ParseDigits(t[14..|t| - 3]) == n
  {
    var tag := NatToString(n);
    var t := "\n\n</paragraph_" + tag + ">\n\n";
    assert t[14..|t| - 3] == tag;
    NatToStringRoundTrip(n);
    t
  }

  /** One numbered paragraph of the bundle. */
  function ParagraphBlock(n: nat, chunk: string): string
  {
    OpeningTag(n) + chunk + ClosingTag(n)
  }

  /** A block is the chunk verbatim between tags that name its number. */
  lemma ParagraphBlockLayout(n: nat, chunk: string)
    ensures var r, open := ParagraphBlock(n, chunk), |OpeningTag(n)|;
      |r| == open + |chunk| + |ClosingTag(n)| &&
      r[..open] == OpeningTag(n) && r[open..open + |chunk|] == chunk && r[open + |chunk|..] == ClosingTag(n)
  {
  }

  /** The paragraphs numbered from 1, in order. */
  function Paragraphs(chunks: seq<string>): string
  {
    if |chunks| == 0 then ""
    else Paragraphs(chunks[..|chunks| - 1]) + ParagraphBlock(|chunks|, chunks[|chunks| - 1])
  }

  /** The bundle for one collection: the sentinel when nothing is left, the header and
      the numbered paragraphs otherwise. */
  function Document(chunks: seq<string>): (r: string)
    ensures r == NotFound <==> |chunks| == 0
    ensures |chunks| > 0 ==> |r| > |ListHeader| && r[..|ListHeader|] == ListHeader
  {
    if |chunks| == 0 then NotFound
    else
      assert |Paragraphs(chunks)| > 0 by {
        assert chunks == chunks[..|chunks| - 1] + [chunks[|chunks| - 1]];
      }
      var r := ListHeader + Paragraphs(chunks);
      assert r[0] == 'L' != NotFound[0];
      r
  }

  /** The final `if not chunks` test and the loop that appends one paragraph at a time. */
  method FormatDocuments(chunks: seq<string>) returns (documents: string)
    ensures documents == Document(chunks)
  {
    if |chunks| == 0 {
      return NotFound;
    }
    documents := ListHeader;
    for i := 0 to |chunks|
      invariant documents == ListHeader + Paragraphs(chunks[..i])
    {
      ParagraphsStep(chunks, i);
      ConcatAssoc(ListHeader, Paragraphs(chunks[..i]), ParagraphBlock(i + 1, chunks[i]));
      documents := documents + ParagraphBlock(i + 1, chunks[i]);
    }
    assert chunks[..|chunks|] == chunks;
  }

  lemma ParagraphsStep(chunks: seq<string>, i: nat)
    requires i < |chunks|
    ensures Paragraphs(chunks[..i + 1]) == Paragraphs(chunks[..i]) + ParagraphBlock(i + 1, chunks[i])
  {
    assert chunks[..i + 1][..i] == chunks[..i];
  }

  lemma {:induction false} ParagraphsPrefix(chunks: seq<string>, n: nat)
    requires n <= |chunks|
    ensures |Paragraphs(chunks[..n])| <= |Paragraphs(chunks)|
    ensures Paragraphs(chunks)[..|Paragraphs(chunks[..n])|] == Paragraphs(chunks[..n])
    decreases |chunks|
  {
    if n < |chunks| {
      var init := chunks[..|chunks| - 1];
      ParagraphsPrefix(init, n);
      assert init[..n] == chunks[..n];
    } else {
      assert chunks[..n] == chunks;
    }
  }

  /** Chunk `k` appears in the bundle as paragraph `k + 1`, right after paragraphs 1..k. */
  lemma ParagraphAt(chunks: seq<string>, k: nat)
    requires k < |chunks|
    ensures var start := |ListHeader + Paragraphs(chunks[..k])|;
      var block := ParagraphBlock(k + 1, chunks[k]);
      start + |block| <= |Document(chunks)| && Document(chunks)[start..start + |block|] == block
  {
    ParagraphsPrefix(chunks, k + 1);
    ParagraphsStep(chunks, k);
    var before, block := Paragraphs(chunks[..k]), ParagraphBlock(k + 1, chunks[k]);
    assert Document(chunks) == ListHeader + Paragraphs(chunks);
    SliceAfterPrefix(ListHeader, Paragraphs(chunks), before, block);
  }

  // ---------------------------------------------------------------------------
  // The whole post-processing

  /** The nodes left after the optional similarity cutoff. */
  function AfterCutoff(retrieved: seq<ScoredNode>, enableSimilarityCutoff: bool, passesCutoff: ScoredNode -> bool)
    : seq<ScoredNode>
  {
    if enableSimilarityCutoff then Filter(retrieved, passesCutoff) else retrieved
  }

  /** `reranked_ids`: the ids of the sanitised copies the rerank model returns. */
  function RerankedIds(nodes: seq<ScoredNode>, question: string,
                       rerank: (seq<ScoredNode>, string, nat) -> seq<ScoredNode>, topN: nat): seq<string>
  {
    NodeIds(rerank(SanitizedCopies(nodes), question, topN))
  }

  /** The nodes left after the optional cutoff and the optional rerank: exactly the
      retrieved nodes that pass the enabled tests, each as often as it was retrieved,
      in retrieval order. */
  function Survivors(retrieved: seq<ScoredNode>, question: string,
                     enableSimilarityCutoff: bool, passesCutoff: ScoredNode -> bool,
                     enableRerank: bool, rerank: (seq<ScoredNode>, string, nat) -> seq<ScoredNode>, topN: nat)
    : (r: seq<ScoredNode>)
    ensures var ids := RerankedIds(AfterCutoff(retrieved, enableSimilarityCutoff, passesCutoff), question, rerank, topN);
      forall x :: x in r <==>
        x in retrieved && (enableSimilarityCutoff ==> passesCutoff(x)) && (enableRerank ==> x.nodeId in ids)
    ensures var ids := RerankedIds(AfterCutoff(retrieved, enableSimilarityCutoff, passesCutoff), question, rerank, topN);
      forall x :: multiset(r)[x] ==
        if (enableSimilarityCutoff ==> passesCutoff(x)) && (enableRerank ==> x.nodeId in ids)
        then multiset(retrieved)[x] else 0
    ensures IsSubsequence(r, retrieved)
  {
    var afterCutoff := AfterCutoff(retrieved, enableSimilarityCutoff, passesCutoff);
    FilterCount(retrieved, passesCutoff);
    SubsequenceReflexive(retrieved);
    if enableRerank then
      var kept := FilterByIds(afterCutoff, RerankedIds(afterCutoff, question, rerank, topN));
      SubsequenceTransitive(kept, afterCutoff, retrieved);
      kept
    else afterCutoff
  }

  /** `retriever` from the search result on: `retrieved` is what the similarity search
      returned, `passesCutoff` the similarity postprocessor's test and `rerank` the
      rerank model. */
  method Retriever(retrieved: seq<ScoredNode>, question: string,
                   enableSimilarityCutoff: bool, passesCutoff: ScoredNode -> bool,
                   enableRerank: bool, rerank: (seq<ScoredNode>, string, nat) -> seq<ScoredNode>, topN: nat)
    returns (documents: string)
    ensures documents == Document(Entries(Dedup(Survivors(retrieved, question, enableSimilarityCutoff, passesCutoff,
                                                           enableRerank, rerank, topN))))
  {
    var nodes := retrieved;
    if enableSimilarityCutoff {
      nodes := Filter(nodes, passesCutoff);
    }
    if enableRerank {
      var shortNodes := ShortenNodes(nodes);
      assert shortNodes == SanitizedCopies(nodes);
      var rerankedShortNodes := rerank(shortNodes, question, topN);
      var rerankedIds := NodeIds(rerankedShortNodes);
      nodes := FilterByIds(nodes, rerankedIds);
    }
    var chunks := CollectParagraphs(nodes);
    documents := FormatDocuments(chunks);
  }
}
