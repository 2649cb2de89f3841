/**
 * The message controller: creating a message, the history with one user
 * (which marks the incoming messages as read), the conversation list, and the
 * three changes to one message (edit, soft delete, mark as read).
 *
 * Each request is a pure step from the store before it to the store after it
 * together with the reply; `Archive` holds the store and runs the steps in
 * place.
 */
module MessageController {
  import opened Common
  import opened MessageModel
  import opened MessageQueries
  import opened UserModel

  /** The store after a request and the reply sent for it. */
  datatype Step<T> = Step(store: seq<Message>, reply: Reply<T>)

  /**
   * What every save keeps true of the store: a message's id is its position
   * (ids are handed out in order and never reused) and every content passed
   * the schema's validators.
   */
  ghost predicate StoreValid(s: seq<Message>) {
    forall k :: 0 <= k < |s| ==> s[k].id == k && ContentValid(s[k].content)
  }

  /** No message lost and no status moved back towards `sent`. */
  ghost predicate NoRegression(before: seq<Message>, after: seq<Message>) {
    && |before| <= |after|
    && forall k :: 0 <= k < |before| ==>
         after[k].id == before[k].id && Rank(after[k].status) >= Rank(before[k].status)
  }

  /** `Message.findById`. */
  function FindMessage(s: seq<Message>, id: MessageId): Option<nat> {
    FindIndex(s, (m: Message) => m.id == id)
  }

  /** In a valid store the lookup by id is the lookup by position. */
  lemma FindMessageByPosition(s: seq<Message>, id: MessageId)
    requires StoreValid(s)
    ensures FindMessage(s, id) == if id < |s| then Some(id) else None
  {
    if id < |s| {
      assert s[id].id == id;
    }
  }

  // ---------------------------------------------------------------------------
  // createMessage
  // ---------------------------------------------------------------------------

  /**
   * `createMessage`: the recipient and a non-empty content are required, the
   * content has at most 5000 characters, the recipient must be a known user;
   * then one message from the requester is appended and returned.
   */
  function CreateStep(s: seq<Message>, users: seq<User>, requester: UserId,
                      recipientId: Option<UserId>, content: Option<string>, now: nat): (r: Step<Message>)
    ensures r.reply.Ok? <==>
      && recipientId.Some? && content.Some? && ContentValid(content.value)
      && FindUser(users, recipientId.value).Some?
    ensures r.reply.Err? ==> r.store == s
    ensures recipientId.None? || content.None? || content.value == [] ==>
      r.reply == Err(StatusBadRequest, "Destinataire et contenu requis")
    ensures recipientId.Some? && content.Some? && |content.value| > MaxContentLength ==>
      r.reply == Err(StatusBadRequest, "Maximum 5000 caractères")
    ensures (recipientId.Some? && content.Some? && ContentValid(content.value) &&
             FindUser(users, recipientId.value).None?) ==>
      r.reply == Err(StatusNotFound, "Destinataire non trouvé")
    ensures r.reply.Ok? ==>
      var m := r.reply.value;
      && r.reply.code == StatusCreated
      && r.store == s + [m]
      && m.id == |s| && m.sender == requester && m.recipient == recipientId.value
      && m.content == content.value
      && m.status == Sent && !m.edited && !m.deleted
      && m.createdAt == now && m.updatedAt == now
    ensures StoreValid(s) ==> StoreValid(r.store)
    ensures NoRegression(s, r.store)
  {
    if recipientId.None? || content.None? || content.value == [] then
      Step(s, Err(StatusBadRequest, "Destinataire et contenu requis"))
    else if |content.value| > MaxContentLength then
      Step(s, Err(StatusBadRequest, "Maximum 5000 caractères"))
    else if FindUser(users, recipientId.value).None? then
      Step(s, Err(StatusNotFound, "Destinataire non trouvé"))
    else
      match Build(Draft(Some(requester), recipientId, content), |s|, now)
      case None => Step(s, Err(StatusServerError, "Erreur serveur"))
      case Some(m) => Step(s + [m], Ok(StatusCreated, ToJson(m)))
  }

  // ---------------------------------------------------------------------------
  // getMessagesWith
  // ---------------------------------------------------------------------------

  /**
   * The `updateMany` of the history request: every message from `from` to
   * `to` that is not yet read becomes read, with its `updatedAt` at `now`.
   */
  function MarkIncomingRead(s: seq<Message>, from: UserId, to: UserId, now: nat): (r: seq<Message>)
    ensures |r| == |s|
    ensures forall k :: 0 <= k < |s| && s[k].sender == from && s[k].recipient == to ==>
      r[k].status == Read
    ensures forall k :: 0 <= k < |s| && !(s[k].sender == from && s[k].recipient == to) ==>
      r[k] == s[k]
    ensures forall k :: 0 <= k < |s| && s[k].status == Read ==> r[k] == s[k]
    ensures forall k :: 0 <= k < |s| && s[k].sender == from && s[k].recipient == to && s[k].status != Read ==>
      r[k].updatedAt == now
    ensures forall k :: 0 <= k < |s| ==>
      r[k].(status := s[k].status, updatedAt := s[k].updatedAt) == s[k]
  {
    seq(|s|, k requires 0 <= k < |s| =>
      if s[k].sender == from && s[k].recipient == to && s[k].status != Read
      then s[k].(status := Read, updatedAt := now)
      else s[k])
  }

  /**
   * `getMessagesWith`: the requested page of the pair's history, read from the
   * store as it was before the request, while the store afterwards has every
   * message from `other` to `me` read.
   */
  function HistoryStep(s: seq<Message>, me: UserId, other: UserId,
                       page: Option<nat>, limit: Option<nat>, now: nat): (r: Step<HistoryPage>)
    ensures r.reply.Ok? && r.reply.code == StatusOk
    ensures r.reply.value ==
      History(s, me, other, QueryParam(page, DefaultPage), QueryParam(limit, DefaultLimit))
    ensures r.store == MarkIncomingRead(s, other, me, now)
    ensures StoreValid(s) ==> StoreValid(r.store)
    ensures NoRegression(s, r.store)
  {
    var p := QueryParam(page, DefaultPage);
    var l := QueryParam(limit, DefaultLimit);
    Step(MarkIncomingRead(s, other, me, now), Ok(StatusOk, History(s, me, other, p, l)))
  }

  // ---------------------------------------------------------------------------
  // updateMessage, deleteMessage, markAsRead
  // ---------------------------------------------------------------------------

  /**
   * `updateMessage`: a non-empty content is required, the message must exist
   * and belong to the requester; the save then fails with 500 when the new
   * content exceeds the schema's 5000 characters.
   */
  function UpdateStep(s: seq<Message>, requester: UserId, id: MessageId,
                      content: Option<string>, now: nat): (r: Step<Message>)
    ensures r.reply.Err? ==> r.store == s
    ensures content.None? || content.value == [] ==> r.reply == Err(StatusBadRequest, "Contenu requis")
    ensures content.Some? && content.value != [] && FindMessage(s, id).None? ==>
      r.reply == Err(StatusNotFound, "Message non trouvé")
    ensures (content.Some? && content.value != [] && FindMessage(s, id).Some? &&
             s[FindMessage(s, id).value].sender != requester) ==>
      r.reply == Err(StatusForbidden, "Non autorisé")
    ensures (content.Some? && |content.value| > MaxContentLength && FindMessage(s, id).Some? &&
             s[FindMessage(s, id).value].sender == requester) ==>
      r.reply == Err(StatusServerError, "Erreur serveur")
    ensures r.reply.Ok? <==>
      && content.Some? && ContentValid(content.value)
      && FindMessage(s, id).Some? && s[FindMessage(s, id).value].sender == requester
    ensures r.reply.Ok? ==>
      var i := FindMessage(s, id).value;
      && r.reply.code == StatusOk
      && |r.store| == |s| && r.store == s[i := r.store[i]]
      && r.store[i].(updatedAt := s[i].updatedAt) == s[i].(content := content.value, edited := true)
      && r.store[i].updatedAt == (if s[i].content == content.value && s[i].edited then s[i].updatedAt else now)
      && r.reply.value == ToJson(r.store[i])
    ensures StoreValid(s) ==> StoreValid(r.store)
    ensures NoRegression(s, r.store)
  {
    if content.None? || content.value == [] then Step(s, Err(StatusBadRequest, "Contenu requis"))
    else match FindMessage(s, id)
      case None => Step(s, Err(StatusNotFound, "Message non trouvé"))
      case Some(i) =>
        var m := s[i];
        if m.sender != requester then Step(s, Err(StatusForbidden, "Non autorisé"))
        else if !ContentValid(content.value) then Step(s, Err(StatusServerError, "Erreur serveur"))
        else
          var saved := Saved(m, m.(content := content.value, edited := true), now);
          Step(s[i := saved], Ok(StatusOk, ToJson(saved)))
  }

  /**
   * `deleteMessage`: the message must exist and belong to the requester; it
   * is then flagged deleted and its content replaced by the placeholder.
   */
  function DeleteStep(s: seq<Message>, requester: UserId, id: MessageId, now: nat): (r: Step<()>)
    ensures r.reply.Err? ==> r.store == s
    ensures FindMessage(s, id).None? ==> r.reply == Err(StatusNotFound, "Message non trouvé")
    ensures FindMessage(s, id).Some? && s[FindMessage(s, id).value].sender != requester ==>
      r.reply == Err(StatusForbidden, "Non autorisé")
    ensures r.reply.Ok? <==> FindMessage(s, id).Some? && s[FindMessage(s, id).value].sender == requester
    ensures r.reply.Ok? ==>
      var i := FindMessage(s, id).value;
      && r.reply == Ok(StatusOk, ())
      && |r.store| == |s| && r.store == s[i := r.store[i]]
      && r.store[i].(updatedAt := s[i].updatedAt) ==
         s[i].(deleted := true, content := DeletedPlaceholder)
      && r.store[i].updatedAt == (if s[i].deleted && s[i].content == DeletedPlaceholder then s[i].updatedAt else now)
      && ToJson(r.store[i]).content == DeletedPlaceholder
    ensures StoreValid(s) ==> StoreValid(r.store)
    ensures NoRegression(s, r.store)
  {
    match FindMessage(s, id)
    case None => Step(s, Err(StatusNotFound, "Message non trouvé"))
    case Some(i) =>
      var m := s[i];
      if m.sender != requester then Step(s, Err(StatusForbidden, "Non autorisé"))
      else
        PlaceholderIsValidContent();
        var saved := Saved(m, m.(deleted := true, content := DeletedPlaceholder), now);
        Step(s[i := saved], Ok(StatusOk, ()))
  }

  /**
   * `markAsRead`: the message must exist and the requester must be its
   * recipient (its sender is refused like anyone else); its status then
   * becomes read.
   */
  function MarkAsReadStep(s: seq<Message>, requester: UserId, id: MessageId, now: nat): (r: Step<Message>)
    ensures r.reply.Err? ==> r.store == s
    ensures FindMessage(s, id).None? ==> r.reply == Err(StatusNotFound, "Message non trouvé")
    ensures FindMessage(s, id).Some? && s[FindMessage(s, id).value].recipient != requester ==>
      r.reply == Err(StatusForbidden, "Non autorisé")
    ensures r.reply.Ok? <==> FindMessage(s, id).Some? && s[FindMessage(s, id).value].recipient == requester
    ensures r.reply.Ok? ==>
      var i := FindMessage(s, id).value;
      && r.reply.code == StatusOk
      && |r.store| == |s| && r.store == s[i := r.store[i]]
      && r.store[i].(updatedAt := s[i].updatedAt) == s[i].(status := Read)
      && (s[i].status == Read ==> r.store[i] == s[i])
      && r.store[i].updatedAt == (if s[i].status == Read then s[i].updatedAt else now)
      && r.reply.value == ToJson(r.store[i])
    ensures StoreValid(s) ==> StoreValid(r.store)
    ensures NoRegression(s, r.store)
  {
    match FindMessage(s, id)
    case None => Step(s, Err(StatusNotFound, "Message non trouvé"))
    case Some(i) =>
      var m := s[i];
      if m.recipient != requester then Step(s, Err(StatusForbidden, "Non autorisé"))
      else
        var saved := Saved(m, m.(status := Read), now);
        Step(s[i := saved], Ok(StatusOk, ToJson(saved)))
  }

  /** Marking as read a second time, at any later time, succeeds again and changes nothing more. */
  lemma {:induction false} MarkAsReadIdempotent(s: seq<Message>, requester: UserId, id: MessageId,
                                                now: nat, later: nat)
    ensures var first := MarkAsReadStep(s, requester, id, now);
      MarkAsReadStep(first.store, requester, id, later) == first
  {
    var first := MarkAsReadStep(s, requester, id, now);
    if first.reply.Ok? {
      var i := FindMessage(s, id).value;
      var saved := first.store[i];
      assert saved.id == id;
      FindIndexAfterUpdate(s, (m: Message) => m.id == id, i, saved);
      assert FindMessage(first.store, id) == Some(i);
      assert saved.(status := Read) == saved;
      assert first.store[i := saved] == first.store;
    }
  }

  /**
   * A deleted message can still be edited by its sender: the new content is
   * stored, but the record stays deleted, so its JSON view keeps showing the
   * placeholder.
   */
  lemma {:induction false} EditAfterDelete(s: seq<Message>, requester: UserId, id: MessageId,
                                           c: string, now: nat, later: nat)
    requires DeleteStep(s, requester, id, now).reply.Ok? && ContentValid(c)
    ensures var deleted := DeleteStep(s, requester, id, now).store;
      var r := UpdateStep(deleted, requester, id, Some(c), later);
      var i := FindMessage(s, id).value;
      && r.reply.Ok?
      && r.store[i].content == c && r.store[i].deleted
      && r.reply.value.content == DeletedPlaceholder
  {
    var deleted := DeleteStep(s, requester, id, now).store;
    var i := FindMessage(s, id).value;
    FindIndexAfterUpdate(s, (m: Message) => m.id == id, i, deleted[i]);
    assert deleted == s[i := deleted[i]];
    assert FindMessage(deleted, id) == Some(i);
  }

  /**
   * Asking for the history again, at any later time and for any page, leaves
   * the store as the first request left it: the bulk update only matches
   * messages that are not read yet, so not even `updatedAt` moves.
   */
  lemma HistoryRepeatChangesNothing(s: seq<Message>, me: UserId, other: UserId,
                                    page: Option<nat>, limit: Option<nat>, now: nat,
                                    page2: Option<nat>, limit2: Option<nat>, later: nat)
    ensures var first := HistoryStep(s, me, other, page, limit, now).store;
      HistoryStep(first, me, other, page2, limit2, later).store == first
  {
    var first := MarkIncomingRead(s, other, me, now);
    var second := MarkIncomingRead(first, other, me, later);
    forall k | 0 <= k < |first| ensures second[k] == first[k] {
      if first[k].sender == other && first[k].recipient == me {
        assert first[k].status == Read;
      }
    }
  }

  // ---------------------------------------------------------------------------
  // The store
  // ---------------------------------------------------------------------------

  /** The `messages` collection. */
  class Archive {
    var messages: seq<Message>

    ghost predicate Valid()
      reads this
    {
      StoreValid(messages)
    }

    constructor()
      ensures Valid() && messages == []
    {
      messages := [];
    }

    method CreateMessage(users: seq<User>, requester: UserId, recipientId: Option<UserId>,
                         content: Option<string>, now: nat) returns (r: Reply<Message>)
      requires Valid()
      modifies this
      ensures Valid()
      ensures Step(messages, r) == CreateStep(old(messages), users, requester, recipientId, content, now)
    {
      if recipientId.None? || content.None? || content.value == [] {
        return Err(StatusBadRequest, "Destinataire et contenu requis");
      }
      if |content.value| > MaxContentLength {
        return Err(StatusBadRequest, "Maximum 5000 caractères");
      }
      if FindUser(users, recipientId.value).None? {
        return Err(StatusNotFound, "Destinataire non trouvé");
      }
      var built := Build(Draft(Some(requester), recipientId, content), |messages|, now);
      if built.None? {
        return Err(StatusServerError, "Erreur serveur");
      }
      var m := built.value;
      messages := messages + [m];
      r := Ok(StatusCreated, ToJson(m));
    }

    method GetMessagesWith(me: UserId, other: UserId, page: Option<nat>, limit: Option<nat>, now: nat)
      returns (r: Reply<HistoryPage>)
      requires Valid()
      modifies this
      ensures Valid()
      ensures Step(messages, r) == HistoryStep(old(messages), me, other, page, limit, now)
    {
      var p := QueryParam(page, DefaultPage);
      var l := QueryParam(limit, DefaultLimit);
      var found := History(messages, me, other, p, l);
      messages := MarkIncomingRead(messages, other, me, now);
      r := Ok(StatusOk, found);
    }

    /**
     * `getConversations` reads the store and changes nothing: one entry per
     * peer, newest conversation first, each with its newest message and its
     * exact unread count.
     */
    method GetConversations(me: UserId) returns (r: seq<Conversation>)
      ensures r == Conversations(messages, me)
      ensures SortedDesc(r, LastAt)
      ensures forall i, j :: 0 <= i < j < |r| ==> r[i].peer != r[j].peer
      ensures forall m :: m in messages && Involves(m, me) ==>
        exists i :: 0 <= i < |r| && r[i].peer == Other(m, me)
      ensures forall i :: 0 <= i < |r| ==>
        && r[i].lastMessage in messages && Involves(r[i].lastMessage, me)
        && Other(r[i].lastMessage, me) == r[i].peer
        && r[i].unreadCount == CountUnread(messages, me, r[i].peer)
      ensures forall i, m :: 0 <= i < |r| && m in messages && Involves(m, me) && Other(m, me) == r[i].peer ==>
        m.createdAt <= r[i].lastMessage.createdAt
    {
      r := Conversations(messages, me);
      OnePerPeer(messages, me);
      LastMessageIsNewest(messages, me);
      UnreadCountIsExact(messages, me);
    }

    method UpdateMessage(requester: UserId, id: MessageId, content: Option<string>, now: nat)
      returns (r: Reply<Message>)
      requires Valid()
      modifies this
      ensures Valid()
      ensures Step(messages, r) == UpdateStep(old(messages), requester, id, content, now)
    {
      if content.None? || content.value == [] {
        return Err(StatusBadRequest, "Contenu requis");
      }
      var found := FindMessage(messages, id);
      if found.None? {
        return Err(StatusNotFound, "Message non trouvé");
      }
      var i := found.value;
      var m := messages[i];
      if m.sender != requester {
        return Err(StatusForbidden, "Non autorisé");
      }
      var edited := m.(content := content.value, edited := true);
      if !ContentValid(edited.content) {
        return Err(StatusServerError, "Erreur serveur");
      }
      var saved := Saved(m, edited, now);
      messages := messages[i := saved];
      r := Ok(StatusOk, ToJson(saved));
    }

    method DeleteMessage(requester: UserId, id: MessageId, now: nat) returns (r: Reply<()>)
      requires Valid()
      modifies this
      ensures Valid()
      ensures Step(messages, r) == DeleteStep(old(messages), requester, id, now)
    {
      var found := FindMessage(messages, id);
      if found.None? {
        return Err(StatusNotFound, "Message non trouvé");
      }
      var i := found.value;
      var m := messages[i];
      if m.sender != requester {
        return Err(StatusForbidden, "Non autorisé");
      }
      var saved := Saved(m, m.(deleted := true, content := DeletedPlaceholder), now);
      messages := messages[i := saved];
      r := Ok(StatusOk, ());
    }

    method MarkAsRead(requester: UserId, id: MessageId, now: nat) returns (r: Reply<Message>)
      requires Valid()
      modifies this
      ensures Valid()
      ensures Step(messages, r) == MarkAsReadStep(old(messages), requester, id, now)
    {
      var found := FindMessage(messages, id);
      if found.None? {
        return Err(StatusNotFound, "Message non trouvé");
      }
      var i := found.value;
      var m := messages[i];
      if m.recipient != requester {
        return Err(StatusForbidden, "Non autorisé");
      }
      var saved := Saved(m, m.(status := Read), now);
      messages := messages[i := saved];
      r := Ok(StatusOk, ToJson(saved));
    }
  }
}
