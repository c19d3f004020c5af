/** Direct messages between users. A conversation is stored once per
    unordered pair of users, as the ordered pair (smaller id, larger id);
    messages are appended to it. The chat endpoints read the history with
    one user, the list of recent contacts and the user directory. */
module Chat {
  import opened Wrappers
  import opened Text
  import opened Seqs

  datatype Conversation = Conversation(id: nat, userA: int, userB: int, created: int, lastMessageAt: int)

  datatype Message = Message(id: nat, conversationId: nat, sender: int, receiver: int, text: string, sentAt: int)

  /** The user fields the chat reads; a null name or email is "". */
  datatype User = User(id: int, firstName: string, lastName: string, email: string, isActive: bool)

  datatype ChatState = ChatState(conversations: seq<Conversation>, messages: seq<Message>)

  /** The stored key of the conversation between `x` and `y`. */
  function PairKey(x: int, y: int): (r: (int, int))
    ensures r.0 <= r.1
    ensures (r.0 == x && r.1 == y) || (r.0 == y && r.1 == x)
  {
    if x <= y then (x, y) else (y, x)
  }

  /** Either member of a pair finds the same conversation. */
  lemma PairKeySymmetric(x: int, y: int)
    ensures PairKey(x, y) == PairKey(y, x)
  {
  }

  /** `FirstOrDefault(c => c.UserAId == a && c.UserBId == b)`. */
  function FindPair(convs: seq<Conversation>, key: (int, int)): (r: Option<nat>)
    ensures r.Some? ==> r.value < |convs| && (convs[r.value].userA, convs[r.value].userB) == key
    ensures r.None? <==> forall k :: 0 <= k < |convs| ==> (convs[k].userA, convs[k].userB) != key
  {
    FirstIndex(convs, (c: Conversation) => (c.userA, c.userB) == key)
  }

  function ConversationKey(c: Conversation): nat { c.id }
  function MessageKey(m: Message): nat { m.id }

  /** The ids of the stored conversations. */
  function ConversationIds(convs: seq<Conversation>): set<nat> {
    set k | 0 <= k < |convs| :: convs[k].id
  }

  /** One conversation per pair (the unique index), stored in order, with
      distinct ids, and every message filed under a stored conversation. */
  predicate ConversationsOk(convs: seq<Conversation>) {
    && (forall i :: 0 <= i < |convs| ==> convs[i].userA <= convs[i].userB)
    && (forall i, j :: 0 <= i < j < |convs| ==> (convs[i].userA, convs[i].userB) != (convs[j].userA, convs[j].userB))
    && (forall i, j :: 0 <= i < j < |convs| ==> convs[i].id != convs[j].id)
  }

  predicate MessagesFiled(msgs: seq<Message>, ids: set<nat>) {
    forall i :: 0 <= i < |msgs| ==> msgs[i].conversationId in ids
  }

  predicate WellFormed(st: ChatState) {
    ConversationsOk(st.conversations) && MessagesFiled(st.messages, ConversationIds(st.conversations))
  }

  // ---------------------------------------------------------------------
  // SendMessage
  // ---------------------------------------------------------------------

  datatype SendOutcome = NoSession | EmptyText | Sent(conversationId: nat)

  /** The conversations after making sure the pair has one, and the index
      of that conversation. */
  function EnsureConversation(convs: seq<Conversation>, key: (int, int), now: int): (r: (seq<Conversation>, nat))
    ensures r.1 < |r.0| && (r.0[r.1].userA, r.0[r.1].userB) == key
    ensures FindPair(convs, key).Some? ==> r == (convs, FindPair(convs, key).value)
    ensures FindPair(convs, key).None? ==>
      r.0 == convs + [Conversation(NextId(convs, ConversationKey), key.0, key.1, now, now)] && r.1 == |convs|
  {
    match FindPair(convs, key)
    case Some(k) => (convs, k)
    case None => (convs + [Conversation(NextId(convs, ConversationKey), key.0, key.1, now, now)], |convs|)
  }

  /** The conversations after finding or creating the pair's one and
      setting its last message time to `now`, and the index of that
      conversation: every other conversation stays as it was. */
  function StampConversation(convs: seq<Conversation>, key: (int, int), now: int): (r: (seq<Conversation>, nat))
    ensures r.1 < |r.0| && (r.0[r.1].userA, r.0[r.1].userB) == key && r.0[r.1].lastMessageAt == now
    ensures FindPair(convs, key).Some? ==>
      var k := FindPair(convs, key).value;
      && r.1 == k && |r.0| == |convs|
      && r.0[k] == convs[k].(lastMessageAt := now)
      && forall i :: 0 <= i < |convs| && i != k ==> r.0[i] == convs[i]
    ensures FindPair(convs, key).None? ==>
      && r.1 == |convs| && |r.0| == |convs| + 1
      && r.0[..|convs|] == convs
      && r.0[|convs|] == Conversation(NextId(convs, ConversationKey), key.0, key.1, now, now)
  {
    var (c, k) := EnsureConversation(convs, key, now);
    (c[k := c[k].(lastMessageAt := now)], k)
  }

  /** `SendMessage`: with a session user, a message whose trimmed text is
      not empty is stored, trimmed and under a fresh id, in the
      conversation of the two users, which is created when they have none;
      that conversation's last message time becomes `now` and no other
      conversation changes. Anything else changes nothing. */
  function SendMessage(st: ChatState, from: Option<int>, to: int, text: string, now: int): (r: (SendOutcome, ChatState))
    ensures r.0 == NoSession <==> from.None?
    ensures r.0 == EmptyText <==> from.Some? && IsBlank(text)
    ensures !r.0.Sent? ==> r.1 == st
    ensures r.0.Sent? ==>
      var key := PairKey(from.value, to);
      && |r.1.messages| == |st.messages| + 1
      && r.1.messages[..|st.messages|] == st.messages
      && var m := r.1.messages[|st.messages|];
      && m.sender == from.value && m.receiver == to && m.text == Trim(text) && m.sentAt == now
      && m.conversationId == r.0.conversationId
      && (forall i :: 0 <= i < |st.messages| ==> st.messages[i].id < m.id)
      && (FindPair(st.conversations, key).Some? ==>
            var k := FindPair(st.conversations, key).value;
            && |r.1.conversations| == |st.conversations|
            && r.1.conversations[k] == st.conversations[k].(lastMessageAt := now)
            && forall i :: 0 <= i < |st.conversations| && i != k ==> r.1.conversations[i] == st.conversations[i])
      && (FindPair(st.conversations, key).None? ==>
            && |r.1.conversations| == |st.conversations| + 1
            && r.1.conversations[..|st.conversations|] == st.conversations
            && r.1.conversations[|st.conversations|] == Conversation(NextId(st.conversations, ConversationKey), key.0, key.1, now, now))
      && exists k :: 0 <= k < |r.1.conversations|
           && r.1.conversations[k].id == m.conversationId
           && (r.1.conversations[k].userA, r.1.conversations[k].userB) == key
           && r.1.conversations[k].lastMessageAt == now
  {
    if from.None? then (NoSession, st)
    else
      var t := Trim(text);
      if t == "" then (EmptyText, st)
      else
        var (convs, k) := StampConversation(st.conversations, PairKey(from.value, to), now);
        var m := Message(NextId(st.messages, MessageKey), convs[k].id, from.value, to, t, now);
        (Sent(convs[k].id), ChatState(convs, st.messages + [m]))
  }

  /** Finding or creating the pair's conversation and stamping it keeps
      one conversation per pair, and loses no conversation id. */
  lemma EnsureConversationKeeps(convs: seq<Conversation>, key: (int, int), now: int)
    requires ConversationsOk(convs) && key.0 <= key.1
    ensures var (c', k) := StampConversation(convs, key, now);
      && ConversationsOk(c')
      && ConversationIds(convs) <= ConversationIds(c')
      && c'[k].id in ConversationIds(c')
  {
    var (c, k) := EnsureConversation(convs, key, now);
    var c' := c[k := c[k].(lastMessageAt := now)];
    assert StampConversation(convs, key, now) == (c', k);
    if FindPair(convs, key).None? {
      var n := NextId(convs, ConversationKey);
      assert forall i :: 0 <= i < |convs| ==> c[i] == convs[i] && ConversationKey(convs[i]) < n;
    }
    forall x | x in ConversationIds(convs) ensures x in ConversationIds(c') {
      var i :| 0 <= i < |convs| && convs[i].id == x;
      assert c'[i].id == x;
    }
  }

  /** Sending keeps one conversation per pair and every message filed
      under a stored conversation. */
  lemma SendMessageKeepsWellFormed(st: ChatState, from: Option<int>, to: int, text: string, now: int)
    requires WellFormed(st)
    ensures WellFormed(SendMessage(st, from, to, text, now).1)
  {
    var r := SendMessage(st, from, to, text, now);
    if r.0.Sent? {
      var key := PairKey(from.value, to);
      var (convs', k) := StampConversation(st.conversations, key, now);
      EnsureConversationKeeps(st.conversations, key, now);
      assert r.1.conversations == convs';
      var ids := ConversationIds(convs');
      forall i | 0 <= i < |r.1.messages| ensures r.1.messages[i].conversationId in ids {
        if i < |st.messages| { assert r.1.messages[i] == st.messages[i]; }
      }
    }
  }

  /** With one conversation per pair, the lookup finds the pair's row. */
  lemma FindPairOfStored(convs: seq<Conversation>, k: nat)
    requires ConversationsOk(convs) && k < |convs|
    ensures FindPair(convs, (convs[k].userA, convs[k].userB)) == Some(k)
  {
  }

  /** Both directions of a pair share one conversation: a reply files
      under the conversation of the message it answers, and creates none. */
  lemma ReplySharesConversation(st: ChatState, x: int, y: int, t1: string, t2: string, n1: int, n2: int)
    requires WellFormed(st)
    requires SendMessage(st, Some(x), y, t1, n1).0.Sent? && !IsBlank(t2)
    ensures var (o1, st1) := SendMessage(st, Some(x), y, t1, n1);
      var (o2, st2) := SendMessage(st1, Some(y), x, t2, n2);
      o2 == o1 && |st2.conversations| == |st1.conversations|
  {
    var (o1, st1) := SendMessage(st, Some(x), y, t1, n1);
    SendMessageKeepsWellFormed(st, Some(x), y, t1, n1);
    var m := st1.messages[|st.messages|];
    var k :| 0 <= k < |st1.conversations| && st1.conversations[k].id == m.conversationId
      && (st1.conversations[k].userA, st1.conversations[k].userB) == PairKey(x, y);
    FindPairOfStored(st1.conversations, k);
    PairKeySymmetric(x, y);
    assert FindPair(st1.conversations, PairKey(y, x)) == Some(k);
  }

  // ---------------------------------------------------------------------
  // History
  // ---------------------------------------------------------------------

  predicate SentNoLater(a: Message, b: Message) {
    a.sentAt <= b.sentAt
  }

  /** `History`: the messages of the conversation between the session user
      and `withUser`, oldest first; none when the two never wrote.
      `None` is the Unauthorized answer without a session. */
  function History(st: ChatState, me: Option<int>, withUser: int): (r: Option<seq<Message>>)
    ensures r.None? <==> me.None?
    ensures me.Some? && FindPair(st.conversations, PairKey(me.value, withUser)).None? ==> r == Some([])
    ensures me.Some? && FindPair(st.conversations, PairKey(me.value, withUser)).Some? ==>
      var c := st.conversations[FindPair(st.conversations, PairKey(me.value, withUser)).value];
      && multiset(r.value) == multiset(Filter(st.messages, (m: Message) => m.conversationId == c.id))
      && (forall i :: 0 <= i < |r.value| ==> r.value[i].conversationId == c.id)
    ensures r.Some? ==> SortedBy(r.value, SentNoLater)
  {
    match me
    case None => None
    case Some(u) =>
      match FindPair(st.conversations, PairKey(u, withUser))
      case None => Some([])
      case Some(k) =>
        var id := st.conversations[k].id;
        var mine := Filter(st.messages, (m: Message) => m.conversationId == id);
        var r := Sort(mine, SentNoLater);
        AllOfSubmultiset(r, mine, (m: Message) => m.conversationId == id);
        Some(r)
  }

  /** The history is the same seen from either side. */
  lemma HistorySymmetric(st: ChatState, x: int, y: int)
    ensures History(st, Some(x), y) == History(st, Some(y), x)
  {
    PairKeySymmetric(x, y);
  }

  /** A message just sent shows up in the history of both users. */
  lemma SentMessageInHistory(st: ChatState, x: int, y: int, text: string, now: int)
    requires WellFormed(st)
    requires SendMessage(st, Some(x), y, text, now).0.Sent?
    ensures var st1 := SendMessage(st, Some(x), y, text, now).1;
      var m := st1.messages[|st.messages|];
      && m in History(st1, Some(x), y).value
      && m in History(st1, Some(y), x).value
  {
    var (o, st1) := SendMessage(st, Some(x), y, text, now);
    SendMessageKeepsWellFormed(st, Some(x), y, text, now);
    var key := PairKey(x, y);
    var m := st1.messages[|st.messages|];
    var k :| 0 <= k < |st1.conversations| && st1.conversations[k].id == m.conversationId
      && (st1.conversations[k].userA, st1.conversations[k].userB) == key;
    FindPairOfStored(st1.conversations, k);
    var p := (mm: Message) => mm.conversationId == m.conversationId;
    assert m in st1.messages;
    FilterMembers(st1.messages, p, m);
    var h := History(st1, Some(x), y).value;
    assert m in multiset(h);
    HistorySymmetric(st1, x, y);
  }

  // ---------------------------------------------------------------------
  // Contacts
  // ---------------------------------------------------------------------

  /** A row of the contact list. */
  datatype Contact = Contact(userId: int, name: string, lastMessage: string, lastMessageAt: Option<int>)

  /** `(FirstName + " " + LastName)`. */
  function FullName(u: User): string {
    u.firstName + " " + u.lastName
  }

  /** The member of `c` that is not `me`: a member of the conversation,
      and, for a conversation `me` is in with someone else, the other one. */
  function OtherUser(c: Conversation, me: int): (r: int)
    ensures r == c.userA || r == c.userB
    ensures (me == c.userA || me == c.userB) && c.userA != c.userB ==> r != me
  {
    if c.userA == me then c.userB else c.userA
  }

  /** Seen from each of its two members, a conversation leads to the
      other one. */
  lemma OtherUserOfBoth(c: Conversation)
    ensures OtherUser(c, OtherUser(c, c.userA)) == c.userA
    ensures OtherUser(c, OtherUser(c, c.userB)) == c.userB || c.userA == c.userB
  {
  }

  predicate LaterConversation(a: Conversation, b: Conversation) {
    a.lastMessageAt >= b.lastMessageAt
  }

  predicate LaterMessage(a: Message, b: Message) {
    a.sentAt >= b.sentAt
  }

  /** `msgs[i]` belongs to the conversation and none of its messages was
      sent later. */
  predicate LatestAt(msgs: seq<Message>, conversationId: nat, i: int) {
    && 0 <= i < |msgs| && msgs[i].conversationId == conversationId
    && forall j :: 0 <= j < |msgs| && msgs[j].conversationId == conversationId ==> msgs[j].sentAt <= msgs[i].sentAt
  }

  /** The text of the conversation's latest message (one of them when
      several share the latest time), or "" when it has none. */
  function LastText(msgs: seq<Message>, conversationId: nat): (t: string)
    ensures (forall i :: 0 <= i < |msgs| ==> msgs[i].conversationId != conversationId) ==> t == ""
    ensures (exists i :: 0 <= i < |msgs| && msgs[i].conversationId == conversationId) ==>
      exists i :: LatestAt(msgs, conversationId, i) && msgs[i].text == t
  {
    var p := (m: Message) => m.conversationId == conversationId;
    var mine := Filter(msgs, p);
    var newest := Sort(mine, LaterMessage);
    if |newest| == 0 then
      assert forall i :: 0 <= i < |msgs| ==> msgs[i].conversationId != conversationId by {
        forall i | 0 <= i < |msgs| ensures msgs[i].conversationId != conversationId {
          FilterMembers(msgs, p, msgs[i]);
          assert multiset(newest) == multiset{};
        }
      }
      ""
    else
      NewestIsLatest(msgs, conversationId, newest);
      newest[0].text
  }

  /** The head of the conversation's messages sorted newest first is a
      latest message of it. */
  lemma NewestIsLatest(msgs: seq<Message>, conversationId: nat, newest: seq<Message>)
    requires multiset(newest) == multiset(Filter(msgs, (m: Message) => m.conversationId == conversationId))
    requires SortedBy(newest, LaterMessage) && |newest| > 0
    ensures exists i :: LatestAt(msgs, conversationId, i) && msgs[i].text == newest[0].text
  {
    var p := (m: Message) => m.conversationId == conversationId;
    assert newest[0] in multiset(newest);
    FilterMembers(msgs, p, newest[0]);
    var i :| 0 <= i < |msgs| && msgs[i] == newest[0];
    forall j | 0 <= j < |msgs| && msgs[j].conversationId == conversationId ensures msgs[j].sentAt <= msgs[i].sentAt {
      FilterMembers(msgs, p, msgs[j]);
      assert msgs[j] in multiset(newest);
      var k :| 0 <= k < |newest| && newest[k] == msgs[j];
      if k > 0 { assert LaterMessage(newest[0], newest[k]); }
    }
    assert LatestAt(msgs, conversationId, i);
  }

  /** The session user's conversations, most recent first. */
  function Recent(convs: seq<Conversation>, me: int): (r: seq<Conversation>)
    ensures multiset(r) == multiset(Filter(convs, (c: Conversation) => c.userA == me || c.userB == me))
    ensures forall i :: 0 <= i < |r| ==> r[i].userA == me || r[i].userB == me
    ensures SortedBy(r, LaterConversation)
  {
    var mine := Filter(convs, (c: Conversation) => c.userA == me || c.userB == me);
    var r := Sort(mine, LaterConversation);
    AllOfSubmultiset(r, mine, (c: Conversation) => c.userA == me || c.userB == me);
    r
  }

  /** The row the join makes of conversation `c` and user `u`: the user,
      the trimmed full name, the latest message text and the
      conversation's last message time. */
  function ContactRow(c: Conversation, me: int, u: User, msgs: seq<Message>): Contact {
    Contact(u.id, Trim(FullName(u)), LastText(msgs, c.id), Some(c.lastMessageAt))
  }

  /** `row` is the join of conversation `c` with user `j`, its other
      member. */
  predicate JoinedWith(row: Contact, c: Conversation, me: int, users: seq<User>, msgs: seq<Message>, j: int) {
    0 <= j < |users| && users[j].id == OtherUser(c, me) && row == ContactRow(c, me, users[j], msgs)
  }

  ghost predicate JoinedRow(row: Contact, c: Conversation, me: int, users: seq<User>, msgs: seq<Message>) {
    exists j :: JoinedWith(row, c, me, users, msgs, j)
  }

  /** `row` is the join of conversation `k` with user `j`. */
  predicate JoinedAt(row: Contact, convs: seq<Conversation>, me: int, users: seq<User>, msgs: seq<Message>, k: int, j: int) {
    0 <= k < |convs| && JoinedWith(row, convs[k], me, users, msgs, j)
  }

  ghost predicate Joined(row: Contact, convs: seq<Conversation>, me: int, users: seq<User>, msgs: seq<Message>) {
    exists k, j :: JoinedAt(row, convs, me, users, msgs, k, j)
  }

  /** The join condition for conversation `c`: the user is its other
      member. */
  function IsOtherOf(c: Conversation, me: int): User -> bool {
    (u: User) => u.id == OtherUser(c, me)
  }

  function RowOf(c: Conversation, me: int, msgs: seq<Message>): User -> Contact {
    (u: User) => ContactRow(c, me, u, msgs)
  }

  /** The rows of one conversation after the join with the users: one per
      user whose id is the other member, and no other. */
  function ContactsOf(c: Conversation, me: int, users: seq<User>, msgs: seq<Message>): (r: seq<Contact>)
    ensures forall i :: 0 <= i < |r| ==> JoinedRow(r[i], c, me, users, msgs)
    ensures forall j :: 0 <= j < |users| && users[j].id == OtherUser(c, me) ==> ContactRow(c, me, users[j], msgs) in r
  {
    var r := SelectWhere(users, IsOtherOf(c, me), RowOf(c, me, msgs));
    SelectedRowsJoined(c, me, users, msgs, r);
    SelectedRowsComplete(c, me, users, msgs, r);
    r
  }

  lemma SelectedRowsJoined(c: Conversation, me: int, users: seq<User>, msgs: seq<Message>, r: seq<Contact>)
    requires r == SelectWhere(users, IsOtherOf(c, me), RowOf(c, me, msgs))
    ensures forall i :: 0 <= i < |r| ==> JoinedRow(r[i], c, me, users, msgs)
  {
    forall i | 0 <= i < |r| ensures JoinedRow(r[i], c, me, users, msgs) {
      var j := SelectedFrom(users, IsOtherOf(c, me), RowOf(c, me, msgs), i);
      assert JoinedWith(r[i], c, me, users, msgs, j);
    }
  }

  lemma SelectedRowsComplete(c: Conversation, me: int, users: seq<User>, msgs: seq<Message>, r: seq<Contact>)
    requires r == SelectWhere(users, IsOtherOf(c, me), RowOf(c, me, msgs))
    ensures forall j :: 0 <= j < |users| && users[j].id == OtherUser(c, me) ==> ContactRow(c, me, users[j], msgs) in r
  {
    forall j | 0 <= j < |users| && users[j].id == OtherUser(c, me) ensures ContactRow(c, me, users[j], msgs) in r {
      assert IsOtherOf(c, me)(users[j]) && RowOf(c, me, msgs)(users[j]) == ContactRow(c, me, users[j], msgs);
    }
  }

  predicate NewestFirst(rows: seq<Contact>) {
    forall i, j :: 0 <= i < j < |rows| ==>
      rows[i].lastMessageAt.Some? && rows[j].lastMessageAt.Some? && rows[i].lastMessageAt.value >= rows[j].lastMessageAt.value
  }

  /** Every joined row of `convs[1..]` is a joined row of `convs`. */
  lemma JoinedOfTail(row: Contact, convs: seq<Conversation>, me: int, users: seq<User>, msgs: seq<Message>)
    requires |convs| > 0 && Joined(row, convs[1..], me, users, msgs)
    ensures JoinedAt(row, convs, me, users, msgs, 0, 0) || Joined(row, convs, me, users, msgs)
    ensures row.lastMessageAt.Some?
    ensures SortedBy(convs, LaterConversation) ==> row.lastMessageAt.value <= convs[0].lastMessageAt
  {
    var k, j :| JoinedAt(row, convs[1..], me, users, msgs, k, j);
    assert convs[1..][k] == convs[k + 1];
    assert JoinedAt(row, convs, me, users, msgs, k + 1, j);
    if SortedBy(convs, LaterConversation) {
      assert LaterConversation(convs[0], convs[k + 1]);
    }
  }

  /** The rows of the first conversation followed by those of the rest
      keep the properties of `JoinContacts`. */
  lemma JoinStep(convs: seq<Conversation>, me: int, users: seq<User>, msgs: seq<Message>, head: seq<Contact>, tail: seq<Contact>)
    requires |convs| > 0
    requires forall i :: 0 <= i < |head| ==> JoinedRow(head[i], convs[0], me, users, msgs)
    requires forall j :: 0 <= j < |users| && users[j].id == OtherUser(convs[0], me) ==> ContactRow(convs[0], me, users[j], msgs) in head
    requires forall i :: 0 <= i < |tail| ==> Joined(tail[i], convs[1..], me, users, msgs)
    requires forall k, j :: 0 <= k < |convs[1..]| && 0 <= j < |users| && users[j].id == OtherUser(convs[1..][k], me) ==>
      ContactRow(convs[1..][k], me, users[j], msgs) in tail
    requires SortedBy(convs, LaterConversation) ==> NewestFirst(tail)
    ensures forall i :: 0 <= i < |head + tail| ==> Joined((head + tail)[i], convs, me, users, msgs)
    ensures forall k, j :: 0 <= k < |convs| && 0 <= j < |users| && users[j].id == OtherUser(convs[k], me) ==>
      ContactRow(convs[k], me, users[j], msgs) in head + tail
    ensures SortedBy(convs, LaterConversation) ==> NewestFirst(head + tail)
  {
    var r := head + tail;
    forall i | 0 <= i < |r| ensures Joined(r[i], convs, me, users, msgs) {
      if i < |head| {
        assert r[i] == head[i];
        assert JoinedRow(head[i], convs[0], me, users, msgs);
      var j :| JoinedWith(head[i], convs[0], me, users, msgs, j);
        assert JoinedAt(r[i], convs, me, users, msgs, 0, j);
      } else {
        assert r[i] == tail[i - |head|];
        JoinedOfTail(r[i], convs, me, users, msgs);
      }
    }
    forall k, j | 0 <= k < |convs| && 0 <= j < |users| && users[j].id == OtherUser(convs[k], me)
      ensures ContactRow(convs[k], me, users[j], msgs) in r
    {
      if k > 0 { assert convs[1..][k - 1] == convs[k]; }
    }
    if SortedBy(convs, LaterConversation) {
      forall i | 0 <= i < |head| ensures head[i].lastMessageAt == Some(convs[0].lastMessageAt) {
        assert JoinedRow(head[i], convs[0], me, users, msgs);
      var j :| JoinedWith(head[i], convs[0], me, users, msgs, j);
      }
      forall i | 0 <= i < |tail| ensures tail[i].lastMessageAt.Some? && tail[i].lastMessageAt.value <= convs[0].lastMessageAt {
        JoinedOfTail(tail[i], convs, me, users, msgs);
      }
      forall i, j | 0 <= i < j < |r| ensures r[i].lastMessageAt.Some? && r[j].lastMessageAt.Some? && r[i].lastMessageAt.value >= r[j].lastMessageAt.value {
        if j < |head| {
          assert r[i] == head[i] && r[j] == head[j];
        } else if i < |head| {
          assert r[i] == head[i] && r[j] == tail[j - |head|];
        } else {
          assert r[i] == tail[i - |head|] && r[j] == tail[j - |head|];
        }
      }
    }
  }

  /** `Join` of the recent conversations with the users, in conversation
      order: exactly the joined rows, one for each matching pair. */
  function JoinContacts(convs: seq<Conversation>, me: int, users: seq<User>, msgs: seq<Message>): (r: seq<Contact>)
    ensures forall i :: 0 <= i < |r| ==> Joined(r[i], convs, me, users, msgs)
    ensures forall k, j :: 0 <= k < |convs| && 0 <= j < |users| && users[j].id == OtherUser(convs[k], me) ==>
      ContactRow(convs[k], me, users[j], msgs) in r
    ensures SortedBy(convs, LaterConversation) ==> NewestFirst(r)
    decreases |convs|
  {
    if |convs| == 0 then []
    else
      var head := ContactsOf(convs[0], me, users, msgs);
      var tail := JoinContacts(convs[1..], me, users, msgs);
      assert SortedBy(convs, LaterConversation) ==> SortedBy(convs[1..], LaterConversation);
      JoinStep(convs, me, users, msgs, head, tail);
      head + tail
  }

  /** `row` is the join of stored conversation `k`, one `me` is in, with
      user `j`. */
  predicate OwnJoinedAt(row: Contact, convs: seq<Conversation>, me: int, users: seq<User>, msgs: seq<Message>, k: int, j: int) {
    JoinedAt(row, convs, me, users, msgs, k, j) && (convs[k].userA == me || convs[k].userB == me)
  }

  ghost predicate OwnJoined(row: Contact, convs: seq<Conversation>, me: int, users: seq<User>, msgs: seq<Message>) {
    exists k, j :: OwnJoinedAt(row, convs, me, users, msgs, k, j)
  }

  /** Each recent conversation is a stored conversation of `me`, and back. */
  lemma RecentIsOwn(convs: seq<Conversation>, me: int, c: Conversation)
    ensures c in Recent(convs, me) <==> c in convs && (c.userA == me || c.userB == me)
  {
    var p := (c: Conversation) => c.userA == me || c.userB == me;
    FilterMembers(convs, p, c);
    var recent := Recent(convs, me);
    assert c in recent <==> c in multiset(recent);
    assert c in Filter(convs, p) <==> c in multiset(Filter(convs, p));
  }

  /** Rows joined from the user's recent conversations are joins of
      stored conversations the user is in. */
  lemma RecentRowsFromStore(convs: seq<Conversation>, me: int, users: seq<User>, msgs: seq<Message>, rows: seq<Contact>)
    requires forall i :: 0 <= i < |rows| ==> Joined(rows[i], Recent(convs, me), me, users, msgs)
    ensures forall i :: 0 <= i < |rows| ==> OwnJoined(rows[i], convs, me, users, msgs)
  {
    var recent := Recent(convs, me);
    forall i | 0 <= i < |rows| ensures OwnJoined(rows[i], convs, me, users, msgs) {
      assert Joined(rows[i], recent, me, users, msgs);
      var k, j :| JoinedAt(rows[i], recent, me, users, msgs, k, j);
      RecentIsOwn(convs, me, recent[k]);
      var k' :| 0 <= k' < |convs| && convs[k'] == recent[k];
      assert OwnJoinedAt(rows[i], convs, me, users, msgs, k', j);
    }
  }

  /** Every join of a stored conversation of `me` is among the rows joined
      from the recent conversations. */
  lemma StoreRowsInRecent(convs: seq<Conversation>, me: int, users: seq<User>, msgs: seq<Message>, rows: seq<Contact>)
    requires forall k, j :: 0 <= k < |Recent(convs, me)| && 0 <= j < |users| && users[j].id == OtherUser(Recent(convs, me)[k], me) ==>
      ContactRow(Recent(convs, me)[k], me, users[j], msgs) in rows
    ensures forall k, j :: (0 <= k < |convs| && (convs[k].userA == me || convs[k].userB == me)
      && 0 <= j < |users| && users[j].id == OtherUser(convs[k], me)) ==> ContactRow(convs[k], me, users[j], msgs) in rows
  {
    var recent := Recent(convs, me);
    forall k, j | 0 <= k < |convs| && (convs[k].userA == me || convs[k].userB == me)
      && 0 <= j < |users| && users[j].id == OtherUser(convs[k], me)
      ensures ContactRow(convs[k], me, users[j], msgs) in rows
    {
      RecentIsOwn(convs, me, convs[k]);
      var k' :| 0 <= k' < |recent| && recent[k'] == convs[k];
    }
  }

  /** The contact rows without a search term: for each of the user's
      conversations, most recent first, the row of every user whose id is
      the other member, with the latest message; nothing else. */
  function RecentContacts(st: ChatState, users: seq<User>, me: int): (r: seq<Contact>)
    ensures forall i :: 0 <= i < |r| ==> OwnJoined(r[i], st.conversations, me, users, st.messages)
    ensures forall k, j :: (0 <= k < |st.conversations| && (st.conversations[k].userA == me || st.conversations[k].userB == me)
      && 0 <= j < |users| && users[j].id == OtherUser(st.conversations[k], me)) ==>
      ContactRow(st.conversations[k], me, users[j], st.messages) in r
    ensures NewestFirst(r)
  {
    var recent := Recent(st.conversations, me);
    var r := JoinContacts(recent, me, users, st.messages);
    RecentRowsFromStore(st.conversations, me, users, st.messages, r);
    StoreRowsInRecent(st.conversations, me, users, st.messages, r);
    r
  }

  /** Whom a contact search finds: another user whose lower-cased full
      name contains the lower-cased (untrimmed) term. */
  predicate SearchHit(u: User, me: int, q: string) {
    u.id != me && Contains(ToLower(FullName(u)), ToLower(q))
  }

  /** The row a search gives for a user: no message and no time. */
  function SearchRow(u: User): Contact {
    Contact(u.id, Trim(FullName(u)), "", None)
  }

  function IsHitFor(me: int, q: string): User -> bool {
    (u: User) => SearchHit(u, me, q)
  }

  /** `row` is the search row of some user the search finds. */
  ghost predicate FoundRow(row: Contact, users: seq<User>, me: int, q: string) {
    exists j :: 0 <= j < |users| && SearchHit(users[j], me, q) && row == SearchRow(users[j])
  }

  /** The contact rows for a search term: the row of every user the search
      finds, in directory order, and nothing else. */
  function SearchContacts(users: seq<User>, me: int, q: string): (r: seq<Contact>)
    ensures forall i :: 0 <= i < |r| ==> FoundRow(r[i], users, me, q)
    ensures forall j :: 0 <= j < |users| && SearchHit(users[j], me, q) ==> SearchRow(users[j]) in r
  {
    var r := SelectWhere(users, IsHitFor(me, q), SearchRow);
    forall i | 0 <= i < |r| ensures FoundRow(r[i], users, me, q) {
      var j := SelectedFrom(users, IsHitFor(me, q), SearchRow, i);
      assert SearchHit(users[j], me, q) && r[i] == SearchRow(users[j]);
    }
    forall j | 0 <= j < |users| && SearchHit(users[j], me, q) ensures SearchRow(users[j]) in r {
      assert IsHitFor(me, q)(users[j]);
    }
    r
  }

  /** A search row never names the session user and carries no message. */
  lemma SearchRowsHaveNoMessage(users: seq<User>, me: int, q: string)
    ensures forall i :: 0 <= i < |SearchContacts(users, me, q)| ==>
      var row := SearchContacts(users, me, q)[i];
      row.userId != me && row.lastMessage == "" && row.lastMessageAt.None?
  {
    var r := SearchContacts(users, me, q);
    forall i | 0 <= i < |r| ensures r[i].userId != me && r[i].lastMessage == "" && r[i].lastMessageAt.None? {
      assert FoundRow(r[i], users, me, q);
      var j :| 0 <= j < |users| && SearchHit(users[j], me, q) && r[i] == SearchRow(users[j]);
    }
  }

  /** `Contacts`: without a search term, the session user's conversations,
      most recent first, each as the other member's row with the latest
      message. With a term, every other user whose lower-cased full name
      contains the lower-cased (untrimmed) term, with no message. */
  function Contacts(st: ChatState, users: seq<User>, me: Option<int>, q: string): (r: Option<seq<Contact>>)
    ensures r.None? <==> me.None?
    ensures me.Some? && IsBlank(q) ==> r.value == RecentContacts(st, users, me.value)
    ensures me.Some? && !IsBlank(q) ==> r.value == SearchContacts(users, me.value, q)
  {
    match me
    case None => None
    case Some(u) => if IsBlank(q) then Some(RecentContacts(st, users, u)) else Some(SearchContacts(users, u, q))
  }

  // ---------------------------------------------------------------------
  // AllUsers
  // ---------------------------------------------------------------------

  /** `OrderBy(u => u.FirstName).ThenBy(u => u.LastName)`, ordinal. */
  predicate NameLeq(a: User, b: User) {
    if a.firstName == b.firstName then LexLeq(a.lastName, b.lastName) else LexLeq(a.firstName, b.firstName)
  }

  lemma NameLeqIsTotalPreorder()
    ensures IsTotalPreorder(NameLeq)
  {
    forall a: User, b: User ensures NameLeq(a, b) || NameLeq(b, a) {
      LexLeqTotal(a.firstName, b.firstName);
      LexLeqTotal(a.lastName, b.lastName);
    }
    forall a: User, b: User, c: User | NameLeq(a, b) && NameLeq(b, c) ensures NameLeq(a, c) {
      if a.firstName == b.firstName && b.firstName == c.firstName {
        LexLeqTransitive(a.lastName, b.lastName, c.lastName);
      } else if a.firstName == b.firstName || b.firstName == c.firstName {
      } else {
        LexLeqTransitive(a.firstName, b.firstName, c.firstName);
        if a.firstName == c.firstName {
          LexLeqAntisymmetric(a.firstName, b.firstName);
        }
      }
    }
  }

  /** The directory search: the trimmed, lower-cased term in the
      lower-cased full name or email. */
  predicate MatchesSearch(u: User, q: string) {
    var needle := ToLower(Trim(q));
    Contains(ToLower(FullName(u)), needle) || Contains(ToLower(u.email), needle)
  }

  /** Whom `AllUsers` lists for the session user `me`. */
  predicate Listed(u: User, me: int, q: string) {
    u.isActive && u.id != me && (IsBlank(q) || MatchesSearch(u, q))
  }

  /** `AllUsers`: the active users other than the session user, narrowed
      by the search term when there is one, by first then last name. */
  function AllUsers(users: seq<User>, me: Option<int>, q: string): (r: Option<seq<User>>)
    ensures r.None? <==> me.None?
    ensures me.Some? ==> forall u :: u in r.value <==> u in users && Listed(u, me.value, q)
    ensures me.Some? ==> multiset(r.value) == multiset(Filter(users, (u: User) => Listed(u, me.value, q)))
    ensures me.Some? ==> SortedBy(r.value, NameLeq)
  {
    match me
    case None => None
    case Some(m) =>
      var pool := Filter(users, (u: User) => Listed(u, m, q));
      NameLeqIsTotalPreorder();
      var r := Sort(pool, NameLeq);
      forall u ensures u in r <==> u in users && Listed(u, m, q) {
        FilterMembers(users, (u: User) => Listed(u, m, q), u);
        assert u in r <==> u in multiset(r);
        assert u in pool <==> u in multiset(pool);
      }
      Some(r)
  }
}
