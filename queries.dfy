/**
 * The read half of the message controller: the paged history of one pair of
 * users and the conversation list (match, sort, group, sort). Both are pure
 * functions of the stored messages.
 */
module MessageQueries {
  import opened Common
  import opened MessageModel

  function CreatedAt(m: Message): int { m.createdAt }

  /** `m` was sent by `a` to `b` or by `b` to `a`. */
  predicate Between(m: Message, a: UserId, b: UserId) {
    (m.sender == a && m.recipient == b) || (m.sender == b && m.recipient == a)
  }

  /** The `$or` filter of the history query, in store order. */
  function PairMessages(s: seq<Message>, a: UserId, b: UserId): (r: seq<Message>)
    ensures |r| <= |s|
    ensures forall m :: m in r <==> m in s && Between(m, a, b)
  {
    if |s| == 0 then []
    else
      assert s == [s[0]] + s[1..];
      (if Between(s[0], a, b) then [s[0]] else []) + PairMessages(s[1..], a, b)
  }

  // ---------------------------------------------------------------------------
  // History: find, sort newest first, skip, limit, reverse.
  // ---------------------------------------------------------------------------

  const DefaultPage := 1
  const DefaultLimit := 30

  /**
   * `parseInt(raw) || d`: a parameter that is absent or not a number (`None`)
   * or that parses to 0 falls back to the default.
   */
  function QueryParam(raw: Option<nat>, d: nat): (r: nat)
    ensures raw.None? ==> r == d
    ensures raw.Some? ==> r == (if raw.value == 0 then d else raw.value)
    ensures d >= 1 ==> r >= 1
  {
    match raw
    case None => d
    case Some(n) => if n == 0 then d else n
  }

  /** `Math.ceil(total / limit)`: the fewest pages of `limit` that hold `total`. */
  function CeilDiv(total: nat, limit: nat): (r: nat)
    requires limit >= 1
    ensures r * limit >= total
    ensures r == 0 || (r - 1) * limit < total
    ensures r == 0 <==> total == 0
  {
    if total == 0 then 0 else 1 + CeilDiv(if total <= limit then 0 else total - limit, limit)
  }

  datatype Pagination = Pagination(page: nat, limit: nat, total: nat, pages: nat)
  datatype HistoryPage = HistoryPage(messages: seq<Message>, pagination: Pagination)

  /** The pair's messages, newest first (`sort({ createdAt: -1 })`). */
  function NewestFirst(s: seq<Message>, a: UserId, b: UserId): (r: seq<Message>)
    ensures SortedDesc(r, CreatedAt)
    ensures forall m :: m in r <==> m in s && Between(m, a, b)
    ensures |r| == |PairMessages(s, a, b)|
  {
    PermutationMembers(SortDesc(PairMessages(s, a, b), CreatedAt), PairMessages(s, a, b));
    SortDesc(PairMessages(s, a, b), CreatedAt)
  }

  /** Number of messages skipped before page `page`. */
  function Skip(page: nat, limit: nat): nat
    requires page >= 1
  {
    (page - 1) * limit
  }

  /**
   * `.skip(skip).limit(limit)` over the newest-first order followed by
   * `.reverse()`, each message rendered through `toJSON`.
   */
  function Window(newest: seq<Message>, skip: nat, limit: nat): (r: seq<Message>)
    ensures |r| == (if skip >= |newest| then 0 else Min(limit, |newest| - skip))
    ensures forall i :: 0 <= i < |r| ==>
      skip + |r| - 1 - i < |newest| && r[i] == ToJson(newest[skip + |r| - 1 - i])
  {
    var lo := Min(skip, |newest|);
    var hi := Min(skip + limit, |newest|);
    seq(hi - lo, i requires 0 <= i < hi - lo => ToJson(newest[hi - 1 - i]))
  }

  /**
   * The response of the history query: the window `[skip, skip + limit)` of
   * the newest-first order, handed back oldest first, with the pagination
   * block.
   */
  function History(s: seq<Message>, me: UserId, other: UserId, page: nat, limit: nat): (r: HistoryPage)
    requires page >= 1 && limit >= 1
    ensures r.pagination.page == page && r.pagination.limit == limit
    ensures r.pagination.total == |PairMessages(s, me, other)|
    ensures r.pagination.pages * limit >= r.pagination.total
    ensures r.pagination.pages == 0 || (r.pagination.pages - 1) * limit < r.pagination.total
  {
    var total := |PairMessages(s, me, other)|;
    HistoryPage(
      Window(NewestFirst(s, me, other), Skip(page, limit), limit),
      Pagination(page, limit, total, CeilDiv(total, limit)))
  }

  /** Every returned message is the view of a stored message exchanged between the two users. */
  lemma HistoryOnlyPair(s: seq<Message>, me: UserId, other: UserId, page: nat, limit: nat)
    requires page >= 1 && limit >= 1
    ensures var r := History(s, me, other, page, limit).messages;
      forall i :: 0 <= i < |r| ==>
        Between(r[i], me, other) && exists m :: m in s && Between(m, me, other) && r[i] == ToJson(m)
  {
    var r := History(s, me, other, page, limit).messages;
    var newest := NewestFirst(s, me, other);
    forall i | 0 <= i < |r|
      ensures Between(r[i], me, other) && exists m :: m in s && Between(m, me, other) && r[i] == ToJson(m)
    {
      var m := newest[Skip(page, limit) + |r| - 1 - i];
      assert m in newest;
    }
  }

  /** The page is returned oldest first. */
  lemma HistoryOldestFirst(s: seq<Message>, me: UserId, other: UserId, page: nat, limit: nat)
    requires page >= 1 && limit >= 1
    ensures var r := History(s, me, other, page, limit).messages;
      forall i, j :: 0 <= i < j < |r| ==> r[i].createdAt <= r[j].createdAt
  {
    var r := History(s, me, other, page, limit).messages;
    var newest := NewestFirst(s, me, other);
    var skip := Skip(page, limit);
    forall i, j | 0 <= i < j < |r| ensures r[i].createdAt <= r[j].createdAt {
      assert CreatedAt(newest[skip + |r| - 1 - j]) >= CreatedAt(newest[skip + |r| - 1 - i]);
    }
  }

  lemma PageBounds(k: nat, limit: nat)
    requires limit >= 1
    ensures Skip(k / limit + 1, limit) <= k < Skip(k / limit + 1, limit) + limit
  {
    var q, m := k / limit, k % limit;
    assert k == q * limit + m && 0 <= m < limit;
    assert Skip(q + 1, limit) == q * limit;
  }

  /** The page holding newest-first position `k`: `k / limit + 1`, whose window covers `k`. */
  function PageOf(k: nat, limit: nat): (page: nat)
    requires limit >= 1
    ensures page >= 1
    ensures Skip(page, limit) <= k < Skip(page, limit) + limit
  {
    PageBounds(k, limit);
    k / limit + 1
  }

  lemma WindowHas(newest: seq<Message>, skip: nat, limit: nat, k: nat)
    requires skip <= k < skip + limit && k < |newest|
    ensures ToJson(newest[k]) in Window(newest, skip, limit)
  {
    var r := Window(newest, skip, limit);
    var i := skip + |r| - 1 - k;
    assert r[i] == ToJson(newest[k]);
  }

  /** A message whose newest-first position lies inside a page's window is on that page. */
  lemma HistoryHas(s: seq<Message>, me: UserId, other: UserId, page: nat, limit: nat, k: nat)
    requires page >= 1 && limit >= 1
    requires Skip(page, limit) <= k < Skip(page, limit) + limit && k < |PairMessages(s, me, other)|
    ensures ToJson(NewestFirst(s, me, other)[k]) in History(s, me, other, page, limit).messages
  {
    WindowHas(NewestFirst(s, me, other), Skip(page, limit), limit, k);
  }

  /** Page after page, every message of the pair is handed out: the k-th newest is on page k / limit + 1. */
  lemma HistoryPageOf(s: seq<Message>, me: UserId, other: UserId, limit: nat, k: nat)
    requires limit >= 1 && k < |PairMessages(s, me, other)|
    ensures ToJson(NewestFirst(s, me, other)[k]) in History(s, me, other, PageOf(k, limit), limit).messages
  {
    HistoryHas(s, me, other, PageOf(k, limit), limit, k);
  }

  // ---------------------------------------------------------------------------
  // Conversations: match, sort newest first, group by peer, sort by last message.
  // ---------------------------------------------------------------------------

  /** `m` belongs to `u`'s conversations (the `$match` stage). */
  predicate Involves(m: Message, u: UserId) {
    m.sender == u || m.recipient == u
  }

  /** The `$group` key for `u`: the recipient when `u` sent `m`, the sender otherwise. */
  function Other(m: Message, u: UserId): UserId {
    if m.sender == u then m.recipient else m.sender
  }

  /** A message addressed to `u` from peer `p` whose status is not `read`. */
  predicate Unread(m: Message, u: UserId, p: UserId) {
    m.recipient == u && Other(m, u) == p && m.status != Read
  }

  /** One entry of the conversation list. */
  datatype Conversation = Conversation(peer: UserId, lastMessage: Message, unreadCount: nat)

  function LastAt(c: Conversation): int { c.lastMessage.createdAt }

  /** The `$match` stage, in store order. */
  function Involving(s: seq<Message>, u: UserId): (r: seq<Message>)
    ensures |r| <= |s|
    ensures forall m :: m in r <==> m in s && Involves(m, u)
  {
    if |s| == 0 then []
    else
      assert s == [s[0]] + s[1..];
      (if Involves(s[0], u) then [s[0]] else []) + Involving(s[1..], u)
  }

  /** The `$sum` of the group's unread flag for peer `p`. */
  function CountUnread(s: seq<Message>, u: UserId, p: UserId): (r: nat)
    ensures r <= |s|
  {
    if |s| == 0 then 0
    else (if Unread(s[0], u, p) then 1 else 0) + CountUnread(s[1..], u, p)
  }

  /** The messages of `s` whose peer for `u` is not `p`, in order. */
  function WithoutPeer(s: seq<Message>, u: UserId, p: UserId): (r: seq<Message>)
    ensures |r| <= |s|
    ensures forall m :: m in r <==> m in s && Other(m, u) != p
  {
    if |s| == 0 then []
    else
      assert s == [s[0]] + s[1..];
      (if Other(s[0], u) != p then [s[0]] else []) + WithoutPeer(s[1..], u, p)
  }

  /**
   * The `$group` stage over a newest-first sequence: one entry per peer in
   * order of first appearance; `$first` takes the peer's first message and
   * `$sum` counts the peer's unread messages.
   */
  function Group(s: seq<Message>, u: UserId): (r: seq<Conversation>)
    ensures |r| <= |s|
    ensures |r| == 0 <==> |s| == 0
    decreases |s|
  {
    if |s| == 0 then []
    else
      var p := Other(s[0], u);
      [Conversation(p, s[0], CountUnread(s, u, p))] + Group(WithoutPeer(s[1..], u, p), u)
  }

  /** The whole aggregation pipeline of the conversation list. */
  function Conversations(s: seq<Message>, u: UserId): (r: seq<Conversation>)
    ensures SortedDesc(r, LastAt)
  {
    SortDesc(Group(SortDesc(Involving(s, u), CreatedAt), u), LastAt)
  }

  lemma TailSorted(s: seq<Message>)
    requires |s| > 0 && SortedDesc(s, CreatedAt)
    ensures SortedDesc(s[1..], CreatedAt)
    ensures forall m :: m in s[1..] ==> m.createdAt <= s[0].createdAt
  {
    forall i, j | 0 <= i < j < |s[1..]| ensures CreatedAt(s[1..][i]) >= CreatedAt(s[1..][j]) {
      assert s[1..][i] == s[i + 1] && s[1..][j] == s[j + 1];
    }
    forall m | m in s[1..] ensures m.createdAt <= s[0].createdAt {
      var k :| 0 <= k < |s[1..]| && s[1..][k] == m;
      assert s[1..][k] == s[k + 1];
      assert CreatedAt(s[0]) >= CreatedAt(s[k + 1]);
    }
  }

  lemma {:induction false} WithoutPeerSorted(s: seq<Message>, u: UserId, p: UserId)
    requires SortedDesc(s, CreatedAt)
    ensures SortedDesc(WithoutPeer(s, u, p), CreatedAt)
  {
    if |s| > 0 {
      TailSorted(s);
      WithoutPeerSorted(s[1..], u, p);
      var rest := WithoutPeer(s[1..], u, p);
      if Other(s[0], u) != p {
        forall j | 0 <= j < |rest| ensures CreatedAt(rest[j]) <= CreatedAt(s[0]) {
          assert rest[j] in rest;
        }
        ConsSorted(s[0], rest, CreatedAt);
        assert WithoutPeer(s, u, p) == [s[0]] + rest;
      } else {
        assert WithoutPeer(s, u, p) == rest;
      }
    }
  }

  lemma {:induction false} CountUnreadWithoutPeer(s: seq<Message>, u: UserId, p: UserId, q: UserId)
    requires p != q
    ensures CountUnread(WithoutPeer(s, u, p), u, q) == CountUnread(s, u, q)
  {
    if |s| > 0 {
      CountUnreadWithoutPeer(s[1..], u, p, q);
      var rest := WithoutPeer(s[1..], u, p);
      if Other(s[0], u) != p {
        assert WithoutPeer(s, u, p) == [s[0]] + rest;
        assert ([s[0]] + rest)[1..] == rest;
      } else {
        assert WithoutPeer(s, u, p) == rest;
        assert !Unread(s[0], u, q);
      }
    }
  }

  lemma {:induction false} CountUnreadInsert(x: Message, t: seq<Message>, key: Message -> int, u: UserId, p: UserId)
    ensures CountUnread(Insert(x, t, key), u, p) == CountUnread([x] + t, u, p)
  {
    assert ([x] + t)[1..] == t;
    if |t| > 0 && key(t[0]) > key(x) {
      CountUnreadInsert(x, t[1..], key, u, p);
      var tail := Insert(x, t[1..], key);
      assert Insert(x, t, key) == [t[0]] + tail;
      assert ([t[0]] + tail)[1..] == tail;
      assert ([x] + t[1..])[1..] == t[1..];
    }
  }

  lemma {:induction false} CountUnreadSort(t: seq<Message>, key: Message -> int, u: UserId, p: UserId)
    ensures CountUnread(SortDesc(t, key), u, p) == CountUnread(t, u, p)
  {
    if |t| > 0 {
      CountUnreadSort(t[1..], key, u, p);
      CountUnreadInsert(t[0], SortDesc(t[1..], key), key, u, p);
      assert ([t[0]] + SortDesc(t[1..], key))[1..] == SortDesc(t[1..], key);
    }
  }

  lemma {:induction false} CountUnreadInvolving(s: seq<Message>, u: UserId, p: UserId)
    ensures CountUnread(Involving(s, u), u, p) == CountUnread(s, u, p)
  {
    if |s| > 0 {
      CountUnreadInvolving(s[1..], u, p);
      var rest := Involving(s[1..], u);
      if Involves(s[0], u) {
        assert Involving(s, u) == [s[0]] + rest;
        assert ([s[0]] + rest)[1..] == rest;
      } else {
        assert Involving(s, u) == rest;
        assert !Unread(s[0], u, p);
      }
    }
  }

  /** Unfolding of one grouping step. */
  lemma GroupStep(s: seq<Message>, u: UserId)
    requires |s| > 0
    ensures var p := Other(s[0], u);
      Group(s, u) == [Conversation(p, s[0], CountUnread(s, u, p))] + Group(WithoutPeer(s[1..], u, p), u)
  {
  }

  /** Each entry is backed by a message of `s` whose peer is the entry's peer. */
  lemma {:induction false} GroupBacked(s: seq<Message>, u: UserId)
    ensures forall i :: 0 <= i < |Group(s, u)| ==>
      Group(s, u)[i].lastMessage in s && Other(Group(s, u)[i].lastMessage, u) == Group(s, u)[i].peer
    decreases |s|
  {
    if |s| > 0 {
      var p := Other(s[0], u);
      var rest := WithoutPeer(s[1..], u, p);
      GroupBacked(rest, u);
      GroupStep(s, u);
      var g, tail := Group(s, u), Group(rest, u);
      forall i | 0 < i < |g|
        ensures g[i].lastMessage in s && Other(g[i].lastMessage, u) == g[i].peer
      {
        assert g[i] == tail[i - 1];
        assert g[i].lastMessage in s[1..];
      }
    }
  }

  /** No peer has two entries. */
  lemma {:induction false} GroupDistinct(s: seq<Message>, u: UserId)
    ensures forall i, j :: 0 <= i < j < |Group(s, u)| ==> Group(s, u)[i].peer != Group(s, u)[j].peer
    decreases |s|
  {
    if |s| > 0 {
      var p := Other(s[0], u);
      var rest := WithoutPeer(s[1..], u, p);
      GroupDistinct(rest, u);
      var tail := Group(rest, u);
      GroupBacked(rest, u);
      forall j | 0 <= j < |tail| ensures tail[j].peer != p {
        assert tail[j].lastMessage in rest;
      }
      GroupStep(s, u);
      ConsDistinct(Conversation(p, s[0], CountUnread(s, u, p)), tail);
    }
  }

  /** Putting an entry with a new peer in front of entries with distinct peers keeps them distinct. */
  lemma ConsDistinct(c: Conversation, tail: seq<Conversation>)
    requires forall i, j :: 0 <= i < j < |tail| ==> tail[i].peer != tail[j].peer
    requires forall j :: 0 <= j < |tail| ==> tail[j].peer != c.peer
    ensures var g := [c] + tail;
      forall i, j :: 0 <= i < j < |g| ==> g[i].peer != g[j].peer
  {
    var g := [c] + tail;
    forall i, j | 0 <= i < j < |g| ensures g[i].peer != g[j].peer {
      assert g[j] == tail[j - 1];
      if i > 0 { assert g[i] == tail[i - 1]; }
    }
  }

  /** Some entry of `g` is the conversation with `q`. */
  ghost predicate Listed(g: seq<Conversation>, q: UserId) {
    exists i :: 0 <= i < |g| && g[i].peer == q
  }

  /** Putting an entry in front keeps every listed peer listed. */
  lemma ListedCons(c: Conversation, tail: seq<Conversation>, q: UserId)
    requires Listed(tail, q)
    ensures Listed([c] + tail, q)
  {
    var i :| 0 <= i < |tail| && tail[i].peer == q;
    assert ([c] + tail)[i + 1] == tail[i];
  }

  lemma InTail(s: seq<Message>, m: Message)
    requires m in s && m != s[0]
    ensures m in s[1..]
  {
    assert s == [s[0]] + s[1..];
  }

  /** Every message of `s` has its peer listed. */
  lemma {:induction false} GroupCovers(s: seq<Message>, u: UserId)
    ensures forall m :: m in s ==> Listed(Group(s, u), Other(m, u))
    decreases |s|
  {
    if |s| > 0 {
      var p := Other(s[0], u);
      var rest := WithoutPeer(s[1..], u, p);
      GroupCovers(rest, u);
      GroupStep(s, u);
      var c, tail := Conversation(p, s[0], CountUnread(s, u, p)), Group(rest, u);
      forall m | m in s ensures Listed([c] + tail, Other(m, u)) {
        if Other(m, u) == p {
          assert ([c] + tail)[0].peer == Other(m, u);
        } else {
          InTail(s, m);
          assert m in rest;
          ListedCons(c, tail, Other(m, u));
        }
      }
    }
  }

  /** Each entry counts exactly the unread messages of its peer in `s`. */
  lemma {:induction false} GroupUnread(s: seq<Message>, u: UserId)
    ensures forall i :: 0 <= i < |Group(s, u)| ==> Group(s, u)[i].unreadCount == CountUnread(s, u, Group(s, u)[i].peer)
    decreases |s|
  {
    if |s| > 0 {
      var p := Other(s[0], u);
      var rest := WithoutPeer(s[1..], u, p);
      GroupUnread(rest, u);
      GroupBacked(rest, u);
      GroupStep(s, u);
      var g, tail := Group(s, u), Group(rest, u);
      forall i | 0 < i < |g| ensures g[i].unreadCount == CountUnread(s, u, g[i].peer) {
        assert g[i] == tail[i - 1];
        assert tail[i - 1].lastMessage in rest;
        CountUnreadWithoutPeer(s[1..], u, p, g[i].peer);
        assert !Unread(s[0], u, g[i].peer);
      }
    }
  }

  /** No message of `s` with the peer of `c` is newer than its `lastMessage`. */
  ghost predicate PeerNewest(c: Conversation, s: seq<Message>, u: UserId) {
    forall m :: m in s && Other(m, u) == c.peer ==> m.createdAt <= c.lastMessage.createdAt
  }

  /** Over a newest-first sequence, the first message is the newest of its peer. */
  lemma HeadNewest(s: seq<Message>, u: UserId, n: nat)
    requires |s| > 0 && SortedDesc(s, CreatedAt)
    ensures PeerNewest(Conversation(Other(s[0], u), s[0], n), s, u)
  {
    TailSorted(s);
    forall m | m in s && Other(m, u) == Other(s[0], u) ensures m.createdAt <= s[0].createdAt {
      if m != s[0] { InTail(s, m); }
    }
  }

  /** An entry for another peer that is newest over the filtered tail is newest over `s`. */
  lemma TailEntryNewest(s: seq<Message>, u: UserId, e: Conversation)
    requires |s| > 0 && e.peer != Other(s[0], u)
    requires PeerNewest(e, WithoutPeer(s[1..], u, Other(s[0], u)), u)
    ensures PeerNewest(e, s, u)
  {
    forall m | m in s && Other(m, u) == e.peer ensures m.createdAt <= e.lastMessage.createdAt {
      InTail(s, m);
      assert m in WithoutPeer(s[1..], u, Other(s[0], u));
    }
  }

  /** Over a newest-first sequence, each entry's message is the newest of its peer. */
  lemma {:induction false} GroupNewest(s: seq<Message>, u: UserId)
    requires SortedDesc(s, CreatedAt)
    ensures forall i :: 0 <= i < |Group(s, u)| ==> PeerNewest(Group(s, u)[i], s, u)
    decreases |s|
  {
    if |s| > 0 {
      var p := Other(s[0], u);
      var rest := WithoutPeer(s[1..], u, p);
      TailSorted(s);
      WithoutPeerSorted(s[1..], u, p);
      GroupNewest(rest, u);
      GroupBacked(rest, u);
      var c, tail := Conversation(p, s[0], CountUnread(s, u, p)), Group(rest, u);
      forall i | 0 <= i < |[c] + tail| ensures PeerNewest(([c] + tail)[i], s, u) {
        if i == 0 {
          HeadNewest(s, u, CountUnread(s, u, p));
        } else {
          assert ([c] + tail)[i] == tail[i - 1];
          assert tail[i - 1].lastMessage in rest;
          TailEntryNewest(s, u, tail[i - 1]);
        }
      }
      GroupStep(s, u);
    }
  }

  /** Over a newest-first sequence, the entries come out newest first. */
  lemma {:induction false} GroupSorted(s: seq<Message>, u: UserId)
    requires SortedDesc(s, CreatedAt)
    ensures SortedDesc(Group(s, u), LastAt)
    decreases |s|
  {
    if |s| > 0 {
      var p := Other(s[0], u);
      var rest := WithoutPeer(s[1..], u, p);
      TailSorted(s);
      WithoutPeerSorted(s[1..], u, p);
      GroupSorted(rest, u);
      GroupBacked(rest, u);
      var tail := Group(rest, u);
      var c := Conversation(p, s[0], CountUnread(s, u, p));
      forall j | 0 <= j < |tail| ensures LastAt(tail[j]) <= LastAt(c) {
        assert tail[j].lastMessage in rest;
        assert tail[j].lastMessage in s[1..];
        assert LastAt(tail[j]) == tail[j].lastMessage.createdAt;
        assert LastAt(c) == s[0].createdAt;
      }
      ConsSorted(c, tail, LastAt);
      GroupStep(s, u);
    }
  }

  /** The final `$sort` finds the groups already in order, so the list is the grouping itself. */
  lemma ConversationsAreGroups(s: seq<Message>, u: UserId)
    ensures Conversations(s, u) == Group(SortDesc(Involving(s, u), CreatedAt), u)
  {
    var sorted := SortDesc(Involving(s, u), CreatedAt);
    GroupSorted(sorted, u);
    SortDescOfSorted(Group(sorted, u), LastAt);
  }

  /** The sorted `$match` stage holds exactly `u`'s messages. */
  lemma MatchedMembers(s: seq<Message>, u: UserId)
    ensures forall m :: m in SortDesc(Involving(s, u), CreatedAt) <==> m in s && Involves(m, u)
  {
    PermutationMembers(SortDesc(Involving(s, u), CreatedAt), Involving(s, u));
  }

  lemma PeersDistinct(s: seq<Message>, u: UserId)
    ensures var c := Conversations(s, u);
      forall i, j :: 0 <= i < j < |c| ==> c[i].peer != c[j].peer
  {
    ConversationsAreGroups(s, u);
    GroupDistinct(SortDesc(Involving(s, u), CreatedAt), u);
  }

  lemma PeersBacked(s: seq<Message>, u: UserId)
    ensures var c := Conversations(s, u);
      forall i :: 0 <= i < |c| ==> exists m :: m in s && Involves(m, u) && Other(m, u) == c[i].peer
  {
    var sorted := SortDesc(Involving(s, u), CreatedAt);
    ConversationsAreGroups(s, u);
    MatchedMembers(s, u);
    GroupBacked(sorted, u);
    var c := Conversations(s, u);
    forall i | 0 <= i < |c| ensures exists m :: m in s && Involves(m, u) && Other(m, u) == c[i].peer {
      assert c[i].lastMessage in sorted;
    }
  }

  lemma PeersCovered(s: seq<Message>, u: UserId)
    ensures var c := Conversations(s, u);
      forall m :: m in s && Involves(m, u) ==> exists i :: 0 <= i < |c| && c[i].peer == Other(m, u)
  {
    var sorted := SortDesc(Involving(s, u), CreatedAt);
    ConversationsAreGroups(s, u);
    MatchedMembers(s, u);
    GroupCovers(sorted, u);
    var c := Conversations(s, u);
    forall m | m in s && Involves(m, u) ensures exists i :: 0 <= i < |c| && c[i].peer == Other(m, u) {
      assert m in sorted;
    }
  }

  /**
   * Exactly one entry per distinct other participant: peers are pairwise
   * distinct, each is the peer of one of `u`'s messages, and every message of
   * `u` has its peer listed.
   */
  lemma OnePerPeer(s: seq<Message>, u: UserId)
    ensures var c := Conversations(s, u);
      && (forall i, j :: 0 <= i < j < |c| ==> c[i].peer != c[j].peer)
      && (forall i :: 0 <= i < |c| ==> exists m :: m in s && Involves(m, u) && Other(m, u) == c[i].peer)
      && (forall m :: m in s && Involves(m, u) ==> exists i :: 0 <= i < |c| && c[i].peer == Other(m, u))
  {
    PeersDistinct(s, u);
    PeersBacked(s, u);
    PeersCovered(s, u);
  }

  /**
   * Each entry's `lastMessage` is a message between `u` and that peer with
   * the greatest `createdAt` of all such messages.
   */
  lemma LastMessageIsNewest(s: seq<Message>, u: UserId)
    ensures var c := Conversations(s, u);
      forall i :: 0 <= i < |c| ==>
        && c[i].lastMessage in s
        && Involves(c[i].lastMessage, u)
        && Other(c[i].lastMessage, u) == c[i].peer
        && forall m :: m in s && Involves(m, u) && Other(m, u) == c[i].peer ==>
             m.createdAt <= c[i].lastMessage.createdAt
  {
    var sorted := SortDesc(Involving(s, u), CreatedAt);
    ConversationsAreGroups(s, u);
    MatchedMembers(s, u);
    GroupBacked(sorted, u);
    GroupNewest(sorted, u);
    var c := Conversations(s, u);
    forall i | 0 <= i < |c|
      ensures c[i].lastMessage in s && Involves(c[i].lastMessage, u)
      ensures forall m :: m in s && Involves(m, u) && Other(m, u) == c[i].peer ==>
                m.createdAt <= c[i].lastMessage.createdAt
    {
      assert c[i].lastMessage in sorted;
      forall m | m in s && Involves(m, u) && Other(m, u) == c[i].peer
        ensures m.createdAt <= c[i].lastMessage.createdAt
      {
        assert m in sorted;
      }
    }
  }

  /**
   * Each entry's `unreadCount` is the number of stored messages from that
   * peer to `u` whose status is not `read`.
   */
  lemma UnreadCountIsExact(s: seq<Message>, u: UserId)
    ensures var c := Conversations(s, u);
      forall i :: 0 <= i < |c| ==> c[i].unreadCount == CountUnread(s, u, c[i].peer)
  {
    var sorted := SortDesc(Involving(s, u), CreatedAt);
    ConversationsAreGroups(s, u);
    GroupUnread(sorted, u);
    var c := Conversations(s, u);
    forall i | 0 <= i < |c| ensures c[i].unreadCount == CountUnread(s, u, c[i].peer) {
      CountUnreadSort(Involving(s, u), CreatedAt, u, c[i].peer);
      CountUnreadInvolving(s, u, c[i].peer);
    }
  }
}
