/**
 * The message record of the archive: its fields, the defaults a new record
 * receives, the schema validation run on every save, the `updatedAt`
 * timestamp rule, and the JSON view that masks deleted content.
 */
module MessageModel {
  import opened Common

  datatype MessageStatus = Sent | Received | Read

  /** A stored message. `createdAt` and `updatedAt` are the schema's timestamps. */
  datatype Message = Message(
    id: MessageId,
    sender: UserId,
    recipient: UserId,
    content: string,
    status: MessageStatus,
    edited: bool,
    deleted: bool,
    createdAt: nat,
    updatedAt: nat)

  const MaxContentLength := 5000
  const DeletedPlaceholder := "[Message supprimé]"

  /** Position of a status in the progression sent, received, read. */
  function Rank(st: MessageStatus): (r: nat)
    ensures r <= 2
    ensures (r == 0) == (st == Sent)
    ensures (r == 2) == (st == Read)
  {
    match st
    case Sent => 0
    case Received => 1
    case Read => 2
  }

  /** The `content` path: required (so not empty) and at most 5000 characters. */
  predicate ContentValid(c: string) {
    c != [] && |c| <= MaxContentLength
  }

  /** The fields given to `new Message({ sender, recipient, content })`; a missing one is `None`. */
  datatype Draft = Draft(sender: Option<UserId>, recipient: Option<UserId>, content: Option<string>)

  /**
   * Creating and saving a new record: the schema's `required` and `maxlength`
   * validators decide whether it is stored; the stored record takes the
   * defaults of the schema and both timestamps are the time of the save.
   */
  function Build(d: Draft, id: MessageId, now: nat): (r: Option<Message>)
    ensures r.Some? <==>
      d.sender.Some? && d.recipient.Some? && d.content.Some? && ContentValid(d.content.value)
    ensures r.Some? ==>
      && r.value.id == id
      && r.value.sender == d.sender.value
      && r.value.recipient == d.recipient.value
      && r.value.content == d.content.value
    ensures r.Some? ==>
      r.value.status == Sent && !r.value.edited && !r.value.deleted &&
      r.value.createdAt == now && r.value.updatedAt == now
  {
    if d.sender.None? || d.recipient.None? || d.content.None? || !ContentValid(d.content.value) then None
    else Some(Message(id, d.sender.value, d.recipient.value, d.content.value, Sent, false, false, now, now))
  }

  /**
   * Saving an existing record after assigning fields: `updatedAt` moves to
   * `now` only when an assignment actually changed a value; a save with
   * nothing modified leaves the record as it was.
   */
  function Saved(before: Message, after: Message, now: nat): (r: Message)
    ensures after == before ==> r == before
    ensures r.(updatedAt := after.updatedAt) == after
    ensures after != before ==> r.updatedAt == now
  {
    if after == before then before else after.(updatedAt := now)
  }

  /**
   * `toJSON`: a copy of the record in which the content of a deleted message
   * is replaced by the placeholder.
   */
  function ToJson(m: Message): (r: Message)
    ensures r.content == (if m.deleted then DeletedPlaceholder else m.content)
    ensures r.(content := m.content) == m
  {
    if m.deleted then m.(content := DeletedPlaceholder) else m
  }

  /** Rendering twice renders once, and a deleted message always reads as the placeholder. */
  lemma ToJsonIdempotent(m: Message)
    ensures ToJson(ToJson(m)) == ToJson(m)
    ensures ToJson(m).deleted ==> ToJson(m).content == DeletedPlaceholder
  {
  }

  /** The placeholder itself is content the schema accepts. */
  lemma PlaceholderIsValidContent()
    ensures ContentValid(DeletedPlaceholder)
  {
  }
}
