/** Message operations of `TempEmailClient`: id normalisation in
    `get_messages`, the guards and id clean-up of `get_message_content` and
    `delete_message`, `search_messages`, and the table rows of
    `display_messages`. Provider answers are parameters. */
module Messages {
  import opened Options
  import opened Text
  import opened Seqs
  import opened Session

  /** A message record of the listing. `ref` is the `@id` resource path and
      `id` the raw `id` field; `None` means the key is absent. */
  datatype Message = Message(
    ref: Option<string>,
    id: Option<string>,
    subject: Option<string>,
    sender: Option<string>,
    createdAt: Option<string>,
    attachments: seq<string>)

  /** The `@id` path is present and its last '/'-segment is non-empty. */
  predicate HasRefSegment(m: Message) {
    m.ref.Some? && m.ref.value != "" && m.ref.value[|m.ref.value| - 1] != '/'
  }

  /** The canonical id: the last segment of `@id` when that is non-empty,
      otherwise the raw `id`, otherwise the empty string. The first choice
      never contains '/'. */
  function CanonicalId(m: Message): (r: string)
    ensures HasRefSegment(m) ==>
      && r != "" && '/' !in r
      && EndsWith(m.ref.value, r)
      && (r == m.ref.value || m.ref.value[|m.ref.value| - |r| - 1] == '/')
    ensures !HasRefSegment(m) ==> r == m.id.ValueOr("")
  {
    var segment := LastSegment(m.ref.ValueOr(""));
    LastSegmentEmpty(m.ref.ValueOr(""));
    if segment != "" then segment else m.id.ValueOr("")
  }

  /** The resource path takes precedence over the raw id. */
  lemma CanonicalIdOfPath(m: Message, prefix: string, segment: string)
    requires m.ref == Some(prefix + "/" + segment)
    requires segment != "" && '/' !in segment
    ensures CanonicalId(m) == segment
  {
    LastSegmentOfPath(prefix, segment);
  }

  function Normalize(m: Message): Message {
    m.(id := Some(CanonicalId(m)))
  }

  /** `get_messages`: no listing without a token or when the request fails;
      otherwise the provider's records, in order, each with its `id` replaced
      by the canonical id and every other field kept. */
  function GetMessages(s: ClientState, reply: Option<seq<Message>>): (r: Option<seq<Message>>)
    ensures r.Some? <==> HasToken(s) && reply.Some?
    ensures r.Some? ==> |r.value| == |reply.value|
    ensures r.Some? ==> forall i :: 0 <= i < |r.value| ==>
      && r.value[i].id == Some(CanonicalId(reply.value[i]))
      && r.value[i].(id := reply.value[i].id) == reply.value[i]
  {
    if !HasToken(s) then None
    else match reply
      case None => None
      case Some(ms) => Some(seq(|ms|, i requires 0 <= i < |ms| => Normalize(ms[i])))
  }

  /** Normalising an already normalised listing changes nothing. */
  lemma GetMessagesIdempotent(s: ClientState, reply: Option<seq<Message>>)
    requires GetMessages(s, reply).Some?
    ensures GetMessages(s, GetMessages(s, reply)) == GetMessages(s, reply)
  {
    var l := GetMessages(s, reply).value;
    var l2 := GetMessages(s, Some(l)).value;
    forall i | 0 <= i < |l|
      ensures l2[i] == l[i]
    {
      assert l[i] == Normalize(reply.value[i]);
      assert CanonicalId(l[i]) == CanonicalId(reply.value[i]);
    }
    assert l2 == l;
  }

  /** When every record carries a usable `@id` path, no listed id contains '/'. */
  lemma ListedIdsArePlain(s: ClientState, ms: seq<Message>)
    requires HasToken(s)
    requires forall i :: 0 <= i < |ms| ==> HasRefSegment(ms[i])
    ensures forall m :: m in GetMessages(s, Some(ms)).value ==> m.id.Some? && m.id.value != "" && '/' !in m.id.value
  {
  }

  /** The result of an operation that may decline to contact the provider:
      `NotSent`, or the message id it requested and what came back. */
  datatype Request<T> = NotSent | Sent(target: string, result: T)

  /** The id clean-up of `get_message_content`: a full path is cut down to
      its last segment, a plain id is kept. */
  function ContentId(messageId: string): (r: string)
    ensures '/' !in r && EndsWith(messageId, r)
    ensures '/' !in messageId ==> r == messageId
    ensures '/' in messageId ==> messageId[|messageId| - |r| - 1] == '/'
  {
    if '/' in messageId then LastSegment(messageId) else messageId
  }

  /** The clean-up is the same last-segment rule the listing uses, so asking
      for a message by its `@id` path requests its canonical id. */
  lemma ContentIdMatchesListing(m: Message)
    requires HasRefSegment(m)
    ensures ContentId(m.ref.value) == CanonicalId(m)
    ensures ContentId(CanonicalId(m)) == CanonicalId(m)
  {
    if '/' !in m.ref.value {
      LastSegmentOfPlain(m.ref.value);
    }
  }

  /** `get_message_content`: nothing is requested without a token or with an
      empty id; otherwise the cleaned-up id is requested and the reply (the
      decoded detail, or `None` on error) returned. */
  function GetMessageContent<D>(s: ClientState, messageId: string, reply: Option<D>): (r: Request<Option<D>>)
    ensures r.NotSent? <==> !HasToken(s) || messageId == ""
    ensures r.Sent? ==> '/' !in r.target && EndsWith(messageId, r.target) && r.result == reply
    ensures r.Sent? && '/' !in messageId ==> r.target == messageId
    ensures r.Sent? && '/' in messageId ==> messageId[|messageId| - |r.target| - 1] == '/'
  {
    if !HasToken(s) || messageId == "" then NotSent
    else Sent(ContentId(messageId), reply)
  }

  /** The emptiness check comes before the clean-up, so an id ending in '/'
      passes it and asks for the empty id. */
  lemma ContentOfTrailingSlash<D>(s: ClientState, path: string, reply: Option<D>)
    requires HasToken(s)
    ensures GetMessageContent(s, path + "/", reply) == Sent("", reply)
  {
    var id := path + "/";
    assert id[|id| - 1] == '/';
    assert '/' in id;
    LastSegmentEmpty(id);
  }

  /** `delete_message`: nothing is requested without a token; otherwise the
      id is used as given (no clean-up) and the result is whether the
      provider accepted the deletion. */
  function DeleteMessage(s: ClientState, messageId: string, accepted: bool): (r: Request<bool>)
    ensures r.NotSent? <==> !HasToken(s)
    ensures r.Sent? ==> r.target == messageId && r.result == accepted
  {
    if !HasToken(s) then NotSent else Sent(messageId, accepted)
  }

  /** The search filter: the lower-cased query occurs in the lower-cased
      subject or sender address (absent fields read as ''). */
  predicate Matches(m: Message, query: string) {
    Contains(Lower(m.subject.ValueOr("")), query) || Contains(Lower(m.sender.ValueOr("")), query)
  }

  /** `search_messages`: `[]` when there is no listing or it is empty;
      otherwise exactly the listed messages that match, in listing order and
      with their multiplicities. */
  function SearchMessages(s: ClientState, query: string, reply: Option<seq<Message>>): (r: seq<Message>)
    ensures GetMessages(s, reply).None? ==> r == []
    ensures GetMessages(s, reply).Some? ==> forall m ::
      m in r <==> m in GetMessages(s, reply).value && Matches(m, Lower(query))
    ensures GetMessages(s, reply).Some? ==> IsSubseq(r, GetMessages(s, reply).value)
    ensures GetMessages(s, reply).Some? ==> forall m ::
      multiset(r)[m] == if Matches(m, Lower(query)) then multiset(GetMessages(s, reply).value)[m] else 0
  {
    var listing := GetMessages(s, reply);
    if listing.None? || listing.value == [] then []
    else
      var q := Lower(query);
      var keep := (m: Message) => Matches(m, q);
      FilterSpec(listing.value, keep);
      Filter(listing.value, keep)
  }

  /** An empty query matches every message, so the whole listing is returned. */
  lemma SearchEmptyQuery(s: ClientState, reply: Option<seq<Message>>)
    requires GetMessages(s, reply).Some?
    ensures SearchMessages(s, "", reply) == GetMessages(s, reply).value
  {
    var l := GetMessages(s, reply).value;
    if l != [] {
      forall i | 0 <= i < |l|
        ensures Matches(l[i], Lower(""))
      {
        EmptyContained(Lower(l[i].subject.ValueOr("")));
      }
      var q := Lower("");
      FilterKeepsAll(l, m => Matches(m, q));
    }
  }

  /** The search ignores the case of the query. */
  lemma SearchIgnoresQueryCase(s: ClientState, query: string, reply: Option<seq<Message>>)
    ensures SearchMessages(s, query, reply) == SearchMessages(s, Lower(query), reply)
  {
    LowerIdempotent(query);
  }

  /** A row of the table `display_messages` prints. */
  datatype Row = Row(id: string, from: string, subject: string, receivedAt: string, hasAttachments: string)

  const SubjectWidth := 30
  const IdWidth := 8

  /** The subject cell: at most 30 characters of the subject, with "..."
      appended exactly when the subject was longer; an absent subject shows
      "N/A". The cell shows the subject unchanged when it fits, and also for
      a 33-character subject whose tail already is "...". */
  function SubjectCell(subject: Option<string>): (r: string)
    ensures subject.None? ==> r == "N/A"
    ensures subject.Some? ==> (r == subject.value <==>
      |subject.value| <= SubjectWidth
      || (|subject.value| == SubjectWidth + 3 && subject.value[SubjectWidth..] == "..."))
    ensures subject.Some? && |subject.value| > SubjectWidth ==>
      |r| == SubjectWidth + 3 && r[..SubjectWidth] == subject.value[..SubjectWidth] && r[SubjectWidth..] == "..."
    ensures |r| <= SubjectWidth + 3
  {
    match subject
    case None => "N/A"
    case Some(t) => Take(t, SubjectWidth) + (if |t| > SubjectWidth then "..." else "")
  }

  /** One table row: the first eight characters of the id, sender, subject
      cell, date, and "Yes" exactly when there are attachments. */
  function RowOf(m: Message): (r: Row)
    ensures |r.id| <= IdWidth && r.id <= m.id.ValueOr("N/A")
    ensures |m.id.ValueOr("N/A")| >= IdWidth ==> |r.id| == IdWidth
    ensures |m.id.ValueOr("N/A")| <= IdWidth ==> r.id == m.id.ValueOr("N/A")
    ensures r.from == m.sender.ValueOr("N/A")
    ensures r.subject == SubjectCell(m.subject)
    ensures r.receivedAt == m.createdAt.ValueOr("N/A")
    ensures r.hasAttachments == "Yes" <==> m.attachments != []
    ensures r.hasAttachments == "Yes" || r.hasAttachments == "No"
  {
    Row(Take(m.id.ValueOr("N/A"), IdWidth),
        m.sender.ValueOr("N/A"),
        SubjectCell(m.subject),
        m.createdAt.ValueOr("N/A"),
        if m.attachments != [] then "Yes" else "No")
  }

  /** The rows `display_messages` prints: none when the listing is absent or
      empty, otherwise one per listed message, in order. */
  function DisplayRows(s: ClientState, reply: Option<seq<Message>>): (r: seq<Row>)
    ensures GetMessages(s, reply).None? ==> r == []
    ensures GetMessages(s, reply).Some? ==> |r| == |reply.value|
    ensures GetMessages(s, reply).Some? ==> forall i :: 0 <= i < |r| ==>
      r[i] == RowOf(Normalize(reply.value[i]))
  {
    var listing := GetMessages(s, reply);
    if listing.None? || listing.value == [] then []
    else seq(|listing.value|, i requires 0 <= i < |listing.value| => RowOf(listing.value[i]))
  }
}
