/** The request checks of the HTTP handlers (app.py): the Markdown upload check, the
    collection id built from the clock, and the gate on unknown collection ids. */
module App {
  import opened Wrappers
  import opened Seqs
  import opened Decimal

  // ---------------------------------------------------------------------------
  // Upload check of the indexer handler

  function LowerChar(c: char): char
  {
    if 'A' <= c <= 'Z' then (c as int + 32) as char else c
  }

  /** `s.lower()` on the letters A-Z. Other characters are left alone: no other
      character lower-cases to '.', 'm' or 'd', and the one character whose lower case
      is longer (U+0130) lower-cases to a combining mark, so the suffix test below does
      not depend on them. */
  function Lower(s: string): (r: string)
    ensures |r| == |s| && forall k :: 0 <= k < |s| ==> r[k] == LowerChar(s[k])
    ensures forall k :: 0 <= k < |s| ==> (r[k] != s[k] <==> 'A' <= s[k] <= 'Z')
    ensures forall k :: 0 <= k < |r| ==> !('A' <= r[k] <= 'Z')
  {
    seq(|s|, k requires 0 <= k < |s| => LowerChar(s[k]))
  }

  predicate EndsWith(s: string, suffix: string)
  {
    |suffix| <= |s| && s[|s| - |suffix|..] == suffix
  }

  /** `filename.lower().endswith(".md")`: the accepted names are exactly those ending
      in '.', 'm' or 'M', 'd' or 'D'. */
  function IsMarkdownName(filename: string): (r: bool)
    ensures r <==>
      |filename| >= 3 && filename[|filename| - 3] == '.' &&
      filename[|filename| - 2] in "mM" && filename[|filename| - 1] in "dD"
  {
    var n := |filename|;
    var low := Lower(filename);
    assert n >= 3 ==> low[n - 3..] == [low[n - 3], low[n - 2], low[n - 1]];
    EndsWith(low, ".md")
  }

  datatype HttpError =
    | NotMarkdownFile(filename: string)           // 400
    | CollectionsNotFound(invalidIds: seq<string>) // 404

  function StatusCode(e: HttpError): int
  {
    match e
    case NotMarkdownFile(_) => 400
    case CollectionsNotFound(_) => 404
  }

  /** The loop over the uploads: the first file whose name is not Markdown, if any. */
  method FirstNonMarkdown(filenames: seq<string>) returns (rejected: Option<string>)
    ensures rejected.None? <==> forall k :: 0 <= k < |filenames| ==> IsMarkdownName(filenames[k])
    ensures rejected.Some? ==>
      (exists k :: 0 <= k < |filenames| && filenames[k] == rejected.value &&
         !IsMarkdownName(filenames[k]) && forall j :: 0 <= j < k ==> IsMarkdownName(filenames[j]))
  {
    for k := 0 to |filenames|
      invariant forall j :: 0 <= j < k ==> IsMarkdownName(filenames[j])
    {
      if !IsMarkdownName(filenames[k]) {
        return Some(filenames[k]);
      }
    }
    return None;
  }

  // ---------------------------------------------------------------------------
  // Collection id

  /** A `datetime` value as `datetime.now()` returns it. */
  datatype DateTime = DateTime(year: nat, month: nat, day: nat, hour: nat, minute: nat, second: nat, microsecond: nat)

  predicate ValidDateTime(t: DateTime)
  {
    1 <= t.year <= 9999 && 1 <= t.month <= 12 && 1 <= t.day <= 31 &&
    t.hour < 24 && t.minute < 60 && t.second < 60 && t.microsecond < 1000000
  }

  /** `now.strftime("%Y%m%d%H%M%S") + f"{now.microsecond:06d}"` */
  function Timestamp(now: DateTime): (ts: string)
    requires ValidDateTime(now)
    ensures |ts| == 20 && AllDigits(ts)
  {
    assert Pow10(2) == 100 && Pow10(4) == 10000 && Pow10(6) == 1000000;
    ZeroPad(now.year, 4) + ZeroPad(now.month, 2) + ZeroPad(now.day, 2) +
    ZeroPad(now.hour, 2) + ZeroPad(now.minute, 2) + ZeroPad(now.second, 2) +
    ZeroPad(now.microsecond, 6)
  }

  /** Reads a timestamp back. */
  function ParseTimestamp(ts: string): DateTime
    requires |ts| == 20 && AllDigits(ts)
  {
    DateTime(ParseDigits(ts[0..4]), ParseDigits(ts[4..6]), ParseDigits(ts[6..8]),
             ParseDigits(ts[8..10]), ParseDigits(ts[10..12]), ParseDigits(ts[12..14]),
             ParseDigits(ts[14..20]))
  }

  /** The timestamp determines the instant: distinct instants give distinct ids. */
  lemma TimestampRoundTrip(now: DateTime)
    requires ValidDateTime(now)
    ensures ParseTimestamp(Timestamp(now)) == now
  {
    assert Pow10(2) == 100 && Pow10(4) == 10000 && Pow10(6) == 1000000;
    var ts := Timestamp(now);
    var y, mo, d := ZeroPad(now.year, 4), ZeroPad(now.month, 2), ZeroPad(now.day, 2);
    var h, mi, s := ZeroPad(now.hour, 2), ZeroPad(now.minute, 2), ZeroPad(now.second, 2);
    var us := ZeroPad(now.microsecond, 6);
    assert ts == y + mo + d + h + mi + s + us;
    assert ts[0..4] == y;
    assert ts[4..6] == mo;
    assert ts[6..8] == d;
    assert ts[8..10] == h;
    assert ts[10..12] == mi;
    assert ts[12..14] == s;
    assert ts[14..20] == us;
    ZeroPadRoundTrip(now.year, 4);
    ZeroPadRoundTrip(now.month, 2);
    ZeroPadRoundTrip(now.day, 2);
    ZeroPadRoundTrip(now.hour, 2);
    ZeroPadRoundTrip(now.minute, 2);
    ZeroPadRoundTrip(now.second, 2);
    ZeroPadRoundTrip(now.microsecond, 6);
  }

  /** `f"{collection_name}_{timestamp}"` */
  function CollectionId(collectionName: string, now: DateTime): (id: string)
    requires ValidDateTime(now)
    ensures |id| == |collectionName| + 21
    ensures id[..|collectionName|] == collectionName && id[|collectionName|] == '_'
    ensures AllDigits(id[|collectionName| + 1..])
  {
    var ts := Timestamp(now);
    var id := collectionName + "_" + ts;
    assert id[|collectionName| + 1..] == ts;
    id
  }

  /** Cuts a collection id into the name and the instant it was made. */
  function SplitCollectionId(id: string): (string, DateTime)
    requires |id| >= 21 && AllDigits(id[|id| - 20..])
  {
    (id[..|id| - 21], ParseTimestamp(id[|id| - 20..]))
  }

  lemma CollectionIdRoundTrip(collectionName: string, now: DateTime)
    requires ValidDateTime(now)
    ensures SplitCollectionId(CollectionId(collectionName, now)) == (collectionName, now)
  {
    var id := CollectionId(collectionName, now);
    assert id[|id| - 20..] == Timestamp(now);
    TimestampRoundTrip(now);
  }

  /** The registry entry of a collection. */
  datatype Collection = Collection(id: string, collectionName: string, description: string)

  /** The `indexer` handler up to the call into the indexing service: either the 400
      error for the first non-Markdown upload, or the collection and the uploads that
      `RAGService.index` is called with. */
  method Indexer(collectionName: string, description: string, filenames: seq<string>, now: DateTime)
    returns (r: Result<(Collection, seq<string>), HttpError>)
    requires ValidDateTime(now)
    ensures r.Success? <==> forall k :: 0 <= k < |filenames| ==> IsMarkdownName(filenames[k])
    ensures r.Failure? ==> r.error.NotMarkdownFile? && StatusCode(r.error) == 400
    ensures r.Failure? ==>
      (exists k :: 0 <= k < |filenames| && filenames[k] == r.error.filename &&
         !IsMarkdownName(filenames[k]) && forall j :: 0 <= j < k ==> IsMarkdownName(filenames[j]))
    ensures r.Success? ==> r.value == (Collection(CollectionId(collectionName, now), collectionName, description), filenames)
  {
    var rejected := FirstNonMarkdown(filenames);
    if rejected.Some? {
      return Failure(NotMarkdownFile(rejected.value));
    }
    var collection := Collection(collectionName + "_" + Timestamp(now), collectionName, description);
    return Success((collection, filenames));
  }

  // ---------------------------------------------------------------------------
  // Retrieval gate

  function RegistryIds(collections: seq<Collection>): (ids: seq<string>)
    ensures |ids| == |collections| && forall k :: 0 <= k < |collections| ==> ids[k] == collections[k].id
  {
    seq(|collections|, k requires 0 <= k < |collections| => collections[k].id)
  }

  /** `[id_ for id_ in request.collection_ids if id_ not in collection_ids]` */
  function InvalidIds(requested: seq<string>, registry: seq<Collection>): (r: seq<string>)
    ensures forall id :: id in r <==> id in requested && id !in RegistryIds(registry)
    ensures forall id :: multiset(r)[id] == if id in RegistryIds(registry) then 0 else multiset(requested)[id]
    ensures IsSubsequence(r, requested)
    ensures |r| == 0 <==> forall k :: 0 <= k < |requested| ==> requested[k] in RegistryIds(registry)
  {
    var ids := RegistryIds(registry);
    FilterCount(requested, (id: string) => id !in ids);
    Filter(requested, (id: string) => id !in ids)
  }

  /** The `retrieve` handler up to the call into the retrieval service: either the 404
      error listing the unknown ids, or the question and ids that `RAGService.retrieve`
      is called with. */
  function RetrieveHandler(question: string, requested: seq<string>, registry: seq<Collection>)
    : (r: Result<(string, seq<string>), HttpError>)
    ensures r.Success? <==> forall k :: 0 <= k < |requested| ==> requested[k] in RegistryIds(registry)
    ensures r.Success? ==> r.value == (question, requested)
    ensures r.Failure? ==> StatusCode(r.error) == 404 && r.error == CollectionsNotFound(InvalidIds(requested, registry))
  {
    var invalidIds := InvalidIds(requested, registry);
    if |invalidIds| > 0 then Failure(CollectionsNotFound(invalidIds)) else Success((question, requested))
  }
}
