/** Splitting of blocks into fragments that point back at their whole paragraph
    (common/sentence_splitter.py). */
module SentenceSplitter {
  import opened Seqs
  import opened TextNodes
  import opened Hex

  /** The text splitting library the splitter builds on, seen only through its results:
      the metadata string of a node, `split_text_metadata_aware(text, metadata_str)` and
      `build_nodes_from_splits(splits, node)`. */
  datatype Library = Library(
    metadataStr: TextNode -> string,
    splitText: (string, string) -> seq<string>,
    buildNodes: (seq<string>, TextNode) -> seq<TextNode>)

  /** `_generate_source_id(text)`: the hexadecimal SHA-256 digest of the text, where
      `sha256` stands for hashing the text's UTF-8 encoding. */
  function GenerateSourceId(sha256: string -> Sha256Digest, text: string): (id: string)
    ensures |id| == 64 && forall k :: 0 <= k < |id| ==> IsHexDigit(id[k])
    ensures ParseHex(id) == sha256(text)
  {
    HexRoundTrip(sha256(text));
    HexDigest(sha256(text))
  }

  /** Two texts get the same paragraph id only when their digests agree. */
  lemma SourceIdsDifferForDifferentDigests(sha256: string -> Sha256Digest, t1: string, t2: string)
    requires sha256(t1) != sha256(t2)
    ensures GenerateSourceId(sha256, t1) != GenerateSourceId(sha256, t2)
  {
    if GenerateSourceId(sha256, t1) == GenerateSourceId(sha256, t2) {
      HexInjective(sha256(t1), sha256(t2));
    }
  }

  /** The fragments the library makes of one block, before they are stamped. */
  function Fragments(lib: Library, node: TextNode): seq<TextNode>
  {
    lib.buildNodes(lib.splitText(Content(node), lib.metadataStr(node)), node)
  }

  /** What the loop body does to one fresh fragment: record the paragraph id and the
      full paragraph text, and exclude both keys from the embedded representation. */
  function Stamp(fragment: TextNode, sourceId: string, fullContent: string): (r: TextNode)
    ensures r.text == fragment.text && r.relationships == fragment.relationships
    ensures ParagraphIdKey in r.metadata && r.metadata[ParagraphIdKey] == sourceId
    ensures ParagraphFullContentKey in r.metadata && r.metadata[ParagraphFullContentKey] == fullContent
    ensures forall key :: key in fragment.metadata && key != ParagraphIdKey && key != ParagraphFullContentKey ==>
      key in r.metadata && r.metadata[key] == fragment.metadata[key]
    ensures r.metadata.Keys == fragment.metadata.Keys + {ParagraphIdKey, ParagraphFullContentKey}
    ensures |r.excludedEmbedKeys| == |fragment.excludedEmbedKeys| + 2
    ensures r.excludedEmbedKeys[..|fragment.excludedEmbedKeys|] == fragment.excludedEmbedKeys
    ensures r.excludedEmbedKeys[|fragment.excludedEmbedKeys|..] == [ParagraphIdKey, ParagraphFullContentKey]
    ensures ParagraphIdKey in r.excludedEmbedKeys && ParagraphFullContentKey in r.excludedEmbedKeys
  {
    TextNode(
      fragment.text,
      fragment.metadata[ParagraphIdKey := sourceId][ParagraphFullContentKey := fullContent],
      fragment.relationships,
      fragment.excludedEmbedKeys + [ParagraphIdKey, ParagraphFullContentKey])
  }

  /** The stamped fragments of one block. */
  function Units(lib: Library, sha256: string -> Sha256Digest, node: TextNode): seq<TextNode>
  {
    var fragments := Fragments(lib, node);
    seq(|fragments|, m requires 0 <= m < |fragments| =>
      Stamp(fragments[m], GenerateSourceId(sha256, Content(node)), Content(node)))
  }

  function UnitsOf(lib: Library, sha256: string -> Sha256Digest): TextNode -> seq<TextNode>
  {
    node => Units(lib, sha256, node)
  }

  /** Specification of `_parse_nodes`: every block's units, block after block. */
  function ParseSpec(lib: Library, sha256: string -> Sha256Digest, nodes: seq<TextNode>): seq<TextNode>
  {
    FlatMap(nodes, UnitsOf(lib, sha256))
  }

  /** How many fragments the library makes of the blocks. */
  function FragmentCount(lib: Library, nodes: seq<TextNode>): nat
  {
    if |nodes| == 0 then 0
    else FragmentCount(lib, nodes[..|nodes| - 1]) + |Fragments(lib, nodes[|nodes| - 1])|
  }

  /** `_parse_nodes(nodes)`: for each block, split it, stamp every fragment in place and
      append the fragments to the result. */
  method ParseNodes(lib: Library, sha256: string -> Sha256Digest, nodes: seq<TextNode>)
    returns (allNodes: seq<TextNode>)
    ensures allNodes == ParseSpec(lib, sha256, nodes)
  {
    allNodes := [];
    for i := 0 to |nodes|
      invariant allNodes == ParseSpec(lib, sha256, nodes[..i])
    {
      var node := nodes[i];
      var originalContent := Content(node);
      var metadataStr := lib.metadataStr(node);
      var sourceId := GenerateSourceId(sha256, originalContent);
      var splits := lib.splitText(originalContent, metadataStr);
      var newNodes := lib.buildNodes(splits, node);
      ghost var built := newNodes;
      for j := 0 to |newNodes|
        invariant |newNodes| == |built|
        invariant forall m :: 0 <= m < j ==> newNodes[m] == Stamp(built[m], sourceId, originalContent)
        invariant forall m :: j <= m < |newNodes| ==> newNodes[m] == built[m]
      {
        newNodes := newNodes[j := Stamp(newNodes[j], sourceId, originalContent)];
      }
      assert newNodes == Units(lib, sha256, node);
      assert nodes[..i + 1][..i] == nodes[..i];
      allNodes := allNodes + newNodes;
    }
    assert nodes[..|nodes|] == nodes;
  }

  // ---------------------------------------------------------------------------
  // Properties

  /** The number of units is the total number of fragments. */
  lemma {:induction false} ParseSpecLength(lib: Library, sha256: string -> Sha256Digest, nodes: seq<TextNode>)
    ensures |ParseSpec(lib, sha256, nodes)| == FragmentCount(lib, nodes)
  {
    if |nodes| > 0 {
      ParseSpecLength(lib, sha256, nodes[..|nodes| - 1]);
    }
  }

  /** Fragment `m` of block `k` is unit number `FragmentCount(blocks before k) + m`: the
      units are the blocks' fragments in input order, each stamped with its own block's
      id and text. */
  lemma ParseSpecAt(lib: Library, sha256: string -> Sha256Digest, nodes: seq<TextNode>, k: nat, m: nat)
    requires k < |nodes| && m < |Fragments(lib, nodes[k])|
    ensures FragmentCount(lib, nodes[..k]) + m < |ParseSpec(lib, sha256, nodes)|
    ensures ParseSpec(lib, sha256, nodes)[FragmentCount(lib, nodes[..k]) + m] ==
            Stamp(Fragments(lib, nodes[k])[m], GenerateSourceId(sha256, Content(nodes[k])), Content(nodes[k]))
  {
    FlatMapAt(nodes, UnitsOf(lib, sha256), k, m);
    ParseSpecLength(lib, sha256, nodes[..k]);
  }

  /** Every unit carries the id and the full text of one input block, and both keys
      are excluded from its embedding. */
  lemma EveryUnitPointsToItsBlock(lib: Library, sha256: string -> Sha256Digest, nodes: seq<TextNode>, j: nat)
    returns (k: nat)
    requires j < |ParseSpec(lib, sha256, nodes)|
    ensures k < |nodes|
    ensures var u := ParseSpec(lib, sha256, nodes)[j];
      ParagraphIdKey in u.metadata && u.metadata[ParagraphIdKey] == GenerateSourceId(sha256, Content(nodes[k])) &&
      ParagraphFullContentKey in u.metadata && u.metadata[ParagraphFullContentKey] == Content(nodes[k]) &&
      ParagraphIdKey in u.excludedEmbedKeys && ParagraphFullContentKey in u.excludedEmbedKeys
  {
    var m;
    k, m := FlatMapSource(nodes, UnitsOf(lib, sha256), j);
  }

  /** Paragraph identity is a function of content: two units that carry the same full
      paragraph text carry the same paragraph id, whichever blocks they came from. */
  lemma SameParagraphSameId(lib: Library, sha256: string -> Sha256Digest, nodes: seq<TextNode>, j1: nat, j2: nat)
    requires j1 < |ParseSpec(lib, sha256, nodes)| && j2 < |ParseSpec(lib, sha256, nodes)|
    requires var u1, u2 := ParseSpec(lib, sha256, nodes)[j1], ParseSpec(lib, sha256, nodes)[j2];
      ParagraphFullContentKey in u1.metadata && ParagraphFullContentKey in u2.metadata &&
      u1.metadata[ParagraphFullContentKey] == u2.metadata[ParagraphFullContentKey]
    ensures var u1, u2 := ParseSpec(lib, sha256, nodes)[j1], ParseSpec(lib, sha256, nodes)[j2];
      ParagraphIdKey in u1.metadata && ParagraphIdKey in u2.metadata &&
      u1.metadata[ParagraphIdKey] == u2.metadata[ParagraphIdKey]
  {
    var k1 := EveryUnitPointsToItsBlock(lib, sha256, nodes, j1);
    var k2 := EveryUnitPointsToItsBlock(lib, sha256, nodes, j2);
  }
}
