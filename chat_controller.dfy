/** The chat handlers (`controllers/chatController.js`): sending a message,
    reading one conversation page by page (which marks the caller's unread
    messages in it as read), and listing the caller's conversations with
    their latest message. */
module ChatController {
  import opened Wrappers
  import opened Js
  import opened Docs
  import opened Response
  import opened UserModel
  import opened ChatModel
  import opened NotificationModel
  import opened Database

  /** One line of the conversation list. */
  datatype ConversationEntry = ConversationEntry(conversationId: string, lastMessage: string, timestamp: int, isRead: bool)

  datatype ChatData =
    | Sent(id: Id)
    | ConversationPage(messages: seq<Doc<Chat>>, page: int, limit: int)
    | Conversations(entries: seq<ConversationEntry>)

  const MaxConversations := 50

  // ---------------------------------------------------------------------------
  // The conversation id

  /** `[a, b].sort().join('-')`: the two user ids in string order, joined by a dash. */
  function ConversationId(a: Id, b: Id): (r: string)
    ensures LexLe(a, b) ==> r == a + "-" + b
    ensures !LexLe(a, b) ==> LexLe(b, a) && r == b + "-" + a
  {
    LexTotal(a, b);
    assert Join([a, b], '-') == a + "-" + Join([b], '-') && Join([b], '-') == b;
    assert Join([b, a], '-') == b + "-" + Join([a], '-') && Join([a], '-') == a;
    if LexLe(a, b) then Join([a, b], '-') else Join([b, a], '-')
  }

  /** Both participants compute the same conversation id. */
  lemma ConversationIdSymmetric(a: Id, b: Id)
    ensures ConversationId(a, b) == ConversationId(b, a)
  {
    if LexLe(a, b) && LexLe(b, a) {
      LexAntisymmetric(a, b);
    } else if !LexLe(a, b) && !LexLe(b, a) {
      LexTotal(a, b);
    }
  }

  /** Ids without a dash (an ObjectId is hexadecimal): the conversation id
      names its two participants and no other pair. */
  lemma ConversationIdNamesPair(a: Id, b: Id, c: Id, d: Id)
    requires '-' !in a && '-' !in b && '-' !in c && '-' !in d
    requires ConversationId(a, b) == ConversationId(c, d)
    ensures (a == c && b == d) || (a == d && b == c)
  {
    var p := if LexLe(a, b) then [a, b] else [b, a];
    var q := if LexLe(c, d) then [c, d] else [d, c];
    SplitJoin(p, '-');
    SplitJoin(q, '-');
    assert p == q;
  }

  // ---------------------------------------------------------------------------
  // sendMessage

  function NewMessageNotice(me: Doc<User>, receiverId: Id, chatId: Id): Notification {
    Notification(receiverId, "New Message", me.fields.firstName + " sent you a message", ChatNotice,
                 Some(chatId), Some("Chat"), false)
  }

  /** `sendMessage`: one unread message in the conversation of the caller and
      the receiver, and one chat notification to the receiver about it. */
  method SendMessage(db: Db, me: Doc<User>, receiverId: Option<Id>, bookingId: Option<Id>, message: Option<string>,
                     chatId: Id, noticeId: Id, now: int) returns (r: Reply<ChatData>)
    requires db.Valid() && Fresh(db.chats, chatId) && Fresh(db.notifications, noticeId)
    modifies db`chats, db`notifications
    ensures db.Valid()
    ensures !HasText(receiverId) || !HasText(message) ==>
      && r == ErrorResponse(400, "Please provide receiver and message")
      && db.chats == old(db.chats) && db.notifications == old(db.notifications)
    ensures HasText(receiverId) && HasText(message) ==>
      && db.chats == old(db.chats) + [Doc(chatId, now, Chat(ConversationId(me.id, receiverId.value), me.id, receiverId.value,
                                                            bookingId, message.value, false, None))]
      && db.notifications == old(db.notifications) + [Doc(noticeId, now, NewMessageNotice(me, receiverId.value, chatId))]
      && r == SuccessResponse(201, "Message sent", Some(Sent(chatId)))
  {
    if !HasText(receiverId) || !HasText(message) {
      return ErrorResponse(400, "Please provide receiver and message");
    }
    var chat := Doc(chatId, now, Chat(ConversationId(me.id, receiverId.value), me.id, receiverId.value,
                                      bookingId, message.value, false, None));
    AppendKeepsUnique(db.chats, chat, IdOf);
    db.chats := db.chats + [chat];
    var notice := Doc(noticeId, now, NewMessageNotice(me, receiverId.value, chatId));
    AppendKeepsUnique(db.notifications, notice, IdOf);
    db.notifications := db.notifications + [notice];
    r := SuccessResponse(201, "Message sent", Some(Sent(chatId)));
  }

  // ---------------------------------------------------------------------------
  // getConversation

  function InConversation(conversationId: string): Doc<Chat> -> bool {
    (c: Doc<Chat>) => c.fields.conversationId == conversationId
  }

  /** The filter of the `updateMany`: unread, in the conversation, to the caller. */
  predicate Unread(c: Doc<Chat>, conversationId: string, me: Id) {
    c.fields.conversationId == conversationId && c.fields.receiverId == me && !c.fields.isRead
  }

  function MarkOne(c: Doc<Chat>, conversationId: string, me: Id, now: int): Doc<Chat> {
    if Unread(c, conversationId, me) then c.(fields := c.fields.(isRead := true, readAt := Some(now))) else c
  }

  /** The messages after the `updateMany`. */
  function MarkedRead(s: seq<Doc<Chat>>, conversationId: string, me: Id, now: int): (r: seq<Doc<Chat>>)
    ensures |r| == |s|
  {
    seq(|s|, i requires 0 <= i < |s| => MarkOne(s[i], conversationId, me, now))
  }

  /** Marking touches exactly the caller's unread messages of the conversation:
      afterwards none is left, each of them is read at `now`, and every other
      message, and every id and text, is as it was. */
  lemma MarkedReadExact(s: seq<Doc<Chat>>, conversationId: string, me: Id, now: int)
    ensures var r := MarkedRead(s, conversationId, me, now);
      && (forall i :: 0 <= i < |s| ==> !Unread(r[i], conversationId, me))
      && (forall i :: 0 <= i < |s| ==> r[i].id == s[i].id && r[i].createdAt == s[i].createdAt
                                       && r[i].fields.conversationId == s[i].fields.conversationId
                                       && r[i].fields.senderId == s[i].fields.senderId
                                       && r[i].fields.receiverId == s[i].fields.receiverId
                                       && r[i].fields.message == s[i].fields.message)
      && (forall i :: 0 <= i < |s| && Unread(s[i], conversationId, me) ==>
                        r[i].fields.isRead && r[i].fields.readAt == Some(now))
      && (forall i :: 0 <= i < |s| && !Unread(s[i], conversationId, me) ==> r[i] == s[i])
  {
  }

  /** Reading the conversation again marks nothing more. */
  lemma MarkedReadIdempotent(s: seq<Doc<Chat>>, conversationId: string, me: Id, now: int, later: int)
    ensures MarkedRead(MarkedRead(s, conversationId, me, now), conversationId, me, later) == MarkedRead(s, conversationId, me, now)
  {
    var r := MarkedRead(s, conversationId, me, now);
    MarkedReadExact(s, conversationId, me, now);
    MarkedReadExact(r, conversationId, me, later);
  }

  /** `Chat.updateMany(...)`: one message at a time, in place. */
  method MarkRead(db: Db, conversationId: string, me: Id, now: int)
    requires db.Valid()
    modifies db`chats
    ensures db.Valid()
    ensures db.chats == MarkedRead(old(db.chats), conversationId, me, now)
  {
    ghost var before := db.chats;
    var i := 0;
    while i < |db.chats|
      invariant 0 <= i <= |db.chats| == |before|
      invariant forall k :: 0 <= k < i ==> db.chats[k] == MarkOne(before[k], conversationId, me, now)
      invariant forall k :: i <= k < |db.chats| ==> db.chats[k] == before[k]
    {
      db.chats := db.chats[i := MarkOne(db.chats[i], conversationId, me, now)];
      i := i + 1;
    }
    assert db.chats == MarkedRead(before, conversationId, me, now);
    assert UniqueBy(db.chats, IdOf) by {
      forall a, b | 0 <= a < b < |db.chats| ensures IdOf(db.chats[a]) != IdOf(db.chats[b]) {
        assert IdOf(before[a]) != IdOf(before[b]);
      }
    }
  }

  /** `find({ conversationId }).sort({ createdAt: -1 })`. */
  function ConversationOrder(chats: seq<Doc<Chat>>, conversationId: string): seq<Doc<Chat>> {
    SortDesc(Filter(chats, InConversation(conversationId)), CreatedAt)
  }

  /** The same with `.skip(skip).limit(limit)`. */
  function ConversationMessages(chats: seq<Doc<Chat>>, conversationId: string, skip: nat, limit: int): seq<Doc<Chat>> {
    Page(ConversationOrder(chats, conversationId), skip, limit)
  }

  /** `getConversation` with `userId`: the page of the conversation's newest
      messages, sent back oldest first, as they were before this call marked
      the caller's unread ones as read. A page before the first makes the
      store refuse the skip, before anything is marked. */
  method GetConversation(db: Db, me: Doc<User>, userId: Id, now: int, page: int := 1, limit: int := 50)
    returns (r: Reply<ChatData>)
    requires db.Valid()
    modifies db`chats
    ensures db.Valid()
    ensures (page - 1) * limit < 0 ==>
      r == ServerError("Failed to fetch conversation: ", NegativeSkip) && db.chats == old(db.chats)
    ensures (page - 1) * limit >= 0 ==>
      && db.chats == MarkedRead(old(db.chats), ConversationId(me.id, userId), me.id, now)
      && r == SuccessResponse(200, "Conversation fetched",
                              Some(ConversationPage(Reverse(ConversationMessages(old(db.chats), ConversationId(me.id, userId),
                                                                                 (page - 1) * limit, limit)), page, limit)))
  {
    var skip := (page - 1) * limit;
    if skip < 0 {
      return ServerError("Failed to fetch conversation: ", NegativeSkip);
    }
    var conversationId := ConversationId(me.id, userId);
    var messages := ConversationMessages(db.chats, conversationId, skip, limit);
    MarkRead(db, conversationId, me.id, now);
    r := SuccessResponse(200, "Conversation fetched", Some(ConversationPage(Reverse(messages), page, limit)));
  }

  /** A page of a newest-first list is newest-first. */
  lemma PageDescending<T>(s: seq<T>, key: T -> int, skip: nat, limit: int)
    requires Descending(s, key)
    ensures Descending(Page(s, skip, limit), key)
  {
    var r := Page(s, skip, limit);
    forall i, j | 0 <= i < j < |r| ensures key(r[i]) >= key(r[j]) {
      assert r[i] == s[skip + i] && r[j] == s[skip + j];
    }
  }

  /** Reversing a page of a newest-first list gives it oldest first. */
  lemma ReversedPage<T>(s: seq<T>, key: T -> int, skip: nat, limit: int)
    requires Descending(s, key)
    ensures var m := Reverse(Page(s, skip, limit));
      && Ascending(m, key)
      && (forall i :: 0 <= i < |m| ==> skip + |m| - 1 - i < |s| && m[i] == s[skip + |m| - 1 - i])
  {
    var p := Page(s, skip, limit);
    PageDescending(s, key, skip, limit);
    ReverseOfDescending(p, key);
    var m := Reverse(p);
    forall i | 0 <= i < |m| ensures skip + |m| - 1 - i < |s| && m[i] == s[skip + |m| - 1 - i] {
      assert m[i] == p[|p| - 1 - i];
    }
  }

  /** The messages `getConversation` sends are oldest first, at most `limit`
      of them for a positive limit, and they are the messages ranked `skip`
      onwards in the conversation's newest-first order. */
  lemma ConversationPageOrdered(chats: seq<Doc<Chat>>, conversationId: string, skip: nat, limit: int)
    requires limit > 0
    ensures Ascending(Reverse(ConversationMessages(chats, conversationId, skip, limit)), CreatedAt)
    ensures |ConversationMessages(chats, conversationId, skip, limit)| <= limit
    ensures forall i :: 0 <= i < |ConversationMessages(chats, conversationId, skip, limit)| ==>
      skip + i < |ConversationOrder(chats, conversationId)|
      && ConversationMessages(chats, conversationId, skip, limit)[i] == ConversationOrder(chats, conversationId)[skip + i]
  {
    var sorted := ConversationOrder(chats, conversationId);
    ReversedPage(sorted, CreatedAt, skip, limit);
  }

  /** A page of the sorted matches of a filter holds stored documents that match. */
  lemma PageOfMatches<T>(s: seq<T>, p: T -> bool, key: T -> int, skip: nat, limit: int)
    ensures forall i :: 0 <= i < |Page(SortDesc(Filter(s, p), key), skip, limit)| ==>
      Page(SortDesc(Filter(s, p), key), skip, limit)[i] in s && p(Page(SortDesc(Filter(s, p), key), skip, limit)[i])
  {
    var matching := Filter(s, p);
    var sorted := SortDesc(matching, key);
    SortDescMembers(matching, key);
    var m := Page(sorted, skip, limit);
    forall i | 0 <= i < |m| ensures m[i] in s && p(m[i]) {
      assert m[i] == sorted[skip + i];
      assert m[i] in matching;
    }
  }

  /** Every message `getConversation` sends is a stored message of that conversation. */
  lemma ConversationPageMembers(chats: seq<Doc<Chat>>, conversationId: string, skip: nat, limit: int)
    ensures forall i :: 0 <= i < |ConversationMessages(chats, conversationId, skip, limit)| ==>
      ConversationMessages(chats, conversationId, skip, limit)[i] in chats
      && ConversationMessages(chats, conversationId, skip, limit)[i].fields.conversationId == conversationId
  {
    PageOfMatches(chats, InConversation(conversationId), CreatedAt, skip, limit);
  }

  // ---------------------------------------------------------------------------
  // getConversations

  function Involves(me: Id): Doc<Chat> -> bool {
    (c: Doc<Chat>) => c.fields.senderId == me || c.fields.receiverId == me
  }

  function ConvOf(c: Doc<Chat>): string {
    c.fields.conversationId
  }

  /** The aggregation: the caller's messages newest first, grouped by
      conversation keeping each group's first, the groups newest first, at
      most fifty. */
  function LatestPerConversation(chats: seq<Doc<Chat>>, me: Id): seq<Doc<Chat>> {
    Newest(FirstPerKey(SortDesc(Filter(chats, Involves(me)), CreatedAt), ConvOf), CreatedAt, MaxConversations)
  }

  function EntryOf(c: Doc<Chat>): ConversationEntry {
    ConversationEntry(c.fields.conversationId, c.fields.message, c.createdAt, c.fields.isRead)
  }

  function Entries(s: seq<Doc<Chat>>): (r: seq<ConversationEntry>)
    ensures |r| == |s| && forall i :: 0 <= i < |s| ==> r[i] == EntryOf(s[i])
  {
    seq(|s|, i requires 0 <= i < |s| => EntryOf(s[i]))
  }

  /** The entries `getConversations` answers with. */
  function ConversationList(chats: seq<Doc<Chat>>, me: Id): seq<ConversationEntry> {
    Entries(LatestPerConversation(chats, me))
  }

  /** `getConversations`: it always succeeds; `ConversationsListed` says what the list holds. */
  function GetConversations(db: Db, me: Doc<User>): (r: Reply<ChatData>)
    reads db`chats
    ensures r.status == 200 && r.body.Success? && r.body.data.Some? && r.body.data.value.Conversations?
    ensures r.body.data.value.entries == ConversationList(db.chats, me.id)
  {
    SuccessResponse(200, "Conversations fetched", Some(Conversations(ConversationList(db.chats, me.id))))
  }

  /** The groups are already newest first, so the second sort keeps them as
      they are and the listing is their first fifty. */
  lemma LatestIsPrefixOfGroups(chats: seq<Doc<Chat>>, me: Id)
    ensures var groups := FirstPerKey(SortDesc(Filter(chats, Involves(me)), CreatedAt), ConvOf);
      && Descending(groups, CreatedAt)
      && LatestPerConversation(chats, me) == groups[..Min(MaxConversations, |groups|)]
  {
    var mine := Filter(chats, Involves(me));
    var sorted := SortDesc(mine, CreatedAt);
    var groups := FirstPerKey(sorted, ConvOf);
    FirstPerKeyDescending(sorted, ConvOf, CreatedAt);
    SortDescOfDescending(groups, CreatedAt);
  }

  /** A message of the caller's is in the sorted input of the grouping. */
  lemma MineIsSorted(chats: seq<Doc<Chat>>, me: Id, k: nat)
    requires k < |chats| && Involves(me)(chats[k])
    ensures chats[k] in SortDesc(Filter(chats, Involves(me)), CreatedAt)
  {
    SortDescMembers(Filter(chats, Involves(me)), CreatedAt);
  }

  /** Each listed message is one the caller sent or received. */
  lemma ListedAreMine(chats: seq<Doc<Chat>>, me: Id, i: nat)
    requires i < |LatestPerConversation(chats, me)|
    ensures LatestPerConversation(chats, me)[i] in chats && Involves(me)(LatestPerConversation(chats, me)[i])
  {
    var mine := Filter(chats, Involves(me));
    var sorted := SortDesc(mine, CreatedAt);
    var groups := FirstPerKey(sorted, ConvOf);
    LatestIsPrefixOfGroups(chats, me);
    SortDescMembers(mine, CreatedAt);
    assert LatestPerConversation(chats, me)[i] == groups[i];
    assert groups[i] in sorted;
  }

  /** Each listed message is the latest of its conversation. */
  lemma ListedAreLatest(chats: seq<Doc<Chat>>, me: Id, i: nat, k: nat)
    requires i < |LatestPerConversation(chats, me)| && k < |chats| && Involves(me)(chats[k])
    requires ConvOf(chats[k]) == ConvOf(LatestPerConversation(chats, me)[i])
    ensures LatestPerConversation(chats, me)[i].createdAt >= chats[k].createdAt
  {
    var sorted := SortDesc(Filter(chats, Involves(me)), CreatedAt);
    var groups := FirstPerKey(sorted, ConvOf);
    LatestIsPrefixOfGroups(chats, me);
    assert LatestPerConversation(chats, me)[i] == groups[i];
    MineIsSorted(chats, me, k);
    FirstPerKeyIsLargest(sorted, ConvOf, CreatedAt, groups[i], chats[k]);
  }

  /** Conversations are listed at most once. */
  lemma ListedOnce(chats: seq<Doc<Chat>>, me: Id)
    ensures UniqueBy(LatestPerConversation(chats, me), ConvOf)
  {
    var sorted := SortDesc(Filter(chats, Involves(me)), CreatedAt);
    var groups := FirstPerKey(sorted, ConvOf);
    LatestIsPrefixOfGroups(chats, me);
    FirstPerKeyDistinct(sorted, ConvOf);
    var latest := LatestPerConversation(chats, me);
    forall a, b | 0 <= a < b < |latest| ensures ConvOf(latest[a]) != ConvOf(latest[b]) {
      assert latest[a] == groups[a] && latest[b] == groups[b];
    }
  }

  /** In a prefix of a largest-first list that holds no element of `y`'s key,
      every element is at least `y`, and the prefix stops before `y`. */
  lemma PrefixBeforeOmitted<T, K>(g: seq<T>, key: T -> K, order: T -> int, n: nat, y: T)
    requires Descending(g, order) && y in g && n <= |g|
    requires forall i :: 0 <= i < n ==> key(g[i]) != key(y)
    ensures n < |g|
    ensures forall i :: 0 <= i < n ==> order(g[i]) >= order(y)
  {
    var jy :| 0 <= jy < |g| && g[jy] == y;
    assert n <= jy;
  }

  /** A conversation of the caller's that is not listed is crowded out: the
      listing is full and every listed message is at least as recent. */
  lemma UnlistedAreOlder(chats: seq<Doc<Chat>>, me: Id, k: nat)
    requires k < |chats| && Involves(me)(chats[k])
    requires forall i :: 0 <= i < |LatestPerConversation(chats, me)| ==> ConvOf(LatestPerConversation(chats, me)[i]) != ConvOf(chats[k])
    ensures |LatestPerConversation(chats, me)| == MaxConversations
    ensures forall i :: 0 <= i < |LatestPerConversation(chats, me)| ==> LatestPerConversation(chats, me)[i].createdAt >= chats[k].createdAt
  {
    var sorted := SortDesc(Filter(chats, Involves(me)), CreatedAt);
    var groups := FirstPerKey(sorted, ConvOf);
    LatestIsPrefixOfGroups(chats, me);
    var latest := LatestPerConversation(chats, me);
    var n := Min(MaxConversations, |groups|);
    MineIsSorted(chats, me, k);
    FirstPerKeyCovers(sorted, ConvOf, chats[k]);
    var y :| y in groups && ConvOf(y) == ConvOf(chats[k]);
    FirstPerKeyIsLargest(sorted, ConvOf, CreatedAt, y, chats[k]);
    forall i | 0 <= i < n ensures ConvOf(groups[i]) != ConvOf(y) {
      assert groups[i] == latest[i];
    }
    PrefixBeforeOmitted(groups, ConvOf, CreatedAt, n, y);
    forall i | 0 <= i < |latest| ensures latest[i].createdAt >= chats[k].createdAt {
      assert latest[i] == groups[i];
    }
  }

  /** The shape of the listing: at most fifty entries, one per conversation,
      newest first. */
  lemma ConversationsListedOnce(chats: seq<Doc<Chat>>, me: Id)
    ensures |ConversationList(chats, me)| <= MaxConversations
    ensures forall i, j :: 0 <= i < j < |ConversationList(chats, me)| ==>
      ConversationList(chats, me)[i].conversationId != ConversationList(chats, me)[j].conversationId
    ensures forall i, j :: 0 <= i < j < |ConversationList(chats, me)| ==>
      ConversationList(chats, me)[i].timestamp >= ConversationList(chats, me)[j].timestamp
  {
    var latest := LatestPerConversation(chats, me);
    var e := ConversationList(chats, me);
    ListedOnce(chats, me);
    forall i, j | 0 <= i < j < |e| ensures e[i].conversationId != e[j].conversationId {
      assert ConvOf(latest[i]) != ConvOf(latest[j]);
    }
  }

  /** Each entry is the latest message of a conversation the caller sent or
      received in. */
  lemma ConversationsListedLatest(chats: seq<Doc<Chat>>, me: Id)
    ensures forall i :: 0 <= i < |ConversationList(chats, me)| ==>
      exists k :: 0 <= k < |chats| && Involves(me)(chats[k]) && ConversationList(chats, me)[i] == EntryOf(chats[k])
    ensures forall i, k :: 0 <= i < |ConversationList(chats, me)| && 0 <= k < |chats| && Involves(me)(chats[k])
                           && chats[k].fields.conversationId == ConversationList(chats, me)[i].conversationId ==>
      ConversationList(chats, me)[i].timestamp >= chats[k].createdAt
  {
    var latest := LatestPerConversation(chats, me);
    var e := ConversationList(chats, me);
    forall i | 0 <= i < |e|
      ensures exists k :: 0 <= k < |chats| && Involves(me)(chats[k]) && e[i] == EntryOf(chats[k])
    {
      ListedAreMine(chats, me, i);
      var k :| 0 <= k < |chats| && chats[k] == latest[i];
    }
    forall i, k | 0 <= i < |e| && 0 <= k < |chats| && Involves(me)(chats[k]) && chats[k].fields.conversationId == e[i].conversationId
      ensures e[i].timestamp >= chats[k].createdAt
    {
      ListedAreLatest(chats, me, i, k);
    }
  }

  /** A conversation of the caller's without an entry is crowded out by fifty
      more recent ones. */
  lemma ConversationsListedAllRecent(chats: seq<Doc<Chat>>, me: Id)
    ensures forall k :: 0 <= k < |chats| && Involves(me)(chats[k])
                        && (forall i :: 0 <= i < |ConversationList(chats, me)| ==>
                              ConversationList(chats, me)[i].conversationId != chats[k].fields.conversationId) ==>
      && |ConversationList(chats, me)| == MaxConversations
      && forall i :: 0 <= i < |ConversationList(chats, me)| ==> ConversationList(chats, me)[i].timestamp >= chats[k].createdAt
  {
    var e := ConversationList(chats, me);
    forall k | 0 <= k < |chats| && Involves(me)(chats[k])
               && (forall i :: 0 <= i < |e| ==> e[i].conversationId != chats[k].fields.conversationId)
      ensures |e| == MaxConversations && forall i :: 0 <= i < |e| ==> e[i].timestamp >= chats[k].createdAt
    {
      UnlistedAreOlder(chats, me, k);
    }
  }
}
