/** The text node that flows through the indexing pipeline: its text, its metadata
    dictionary (file_name, file_path, header_path, ...), its relationship links and
    the metadata keys excluded from the embedded representation. */
module TextNodes {

  type Metadata = map<string, string>

  /** Relationship kind -> id of the related node; only carried along, never inspected. */
  type Relationships = map<string, string>

  datatype TextNode = TextNode(
    text: string,
    metadata: Metadata,
    relationships: Relationships,
    excludedEmbedKeys: seq<string>)

  const FileNameKey := "file_name"
  const ParagraphIdKey := "paragraph_id"
  const ParagraphFullContentKey := "paragraph_full_content"

  /** `node.get_content(metadata_mode=MetadataMode.NONE)`: the text without any metadata. */
  function Content(n: TextNode): string
  {
    n.text
  }
}
