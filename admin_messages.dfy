/** The administrator's inbox: messages newest first, marking a message read when it is
    opened, the unread count, and the reply dialog. */
module AdminMessages {
  import opened Basics
  import opened Types

  /** Newest first: a message never follows one with an earlier timestamp. */
  ghost predicate NewestFirstOrder(ms: seq<Message>)
  {
    forall i, j :: 0 <= i < j < |ms| ==> ms[i].timestamp >= ms[j].timestamp
  }

  /** Places `m` after every message at least as new as it, so that of two messages with
      equal timestamps the earlier one stays ahead (the sort is stable). */
  function Insert(ms: seq<Message>, m: Message): seq<Message>
  {
    if ms == [] then [m]
    else if ms[|ms| - 1].timestamp >= m.timestamp then ms + [m]
    else Insert(ms[..|ms| - 1], m) + [ms[|ms| - 1]]
  }

  /** The loaded list, sorted by the comparator `b.timestamp - a.timestamp`. */
  function NewestFirst(ms: seq<Message>): seq<Message>
  {
    if ms == [] then []
    else Insert(NewestFirst(ms[..|ms| - 1]), ms[|ms| - 1])
  }

  /** The inbox as the page loads it: the stored messages, or none, newest first. */
  function LoadMessages(storage: Storage): (ms: seq<Message>)
    ensures NewestFirstOrder(ms)
    ensures multiset(ms) == multiset(StoredMessages(storage.messageSystem))
  {
    SortShape(StoredMessages(storage.messageSystem));
    NewestFirst(StoredMessages(storage.messageSystem))
  }

  /** The number of messages not yet read: the count in the inbox header. */
  function UnreadCount(ms: seq<Message>): (n: nat)
    ensures n <= |ms|
  {
    if ms == [] then 0
    else UnreadCount(ms[..|ms| - 1]) + (if ms[|ms| - 1].read then 0 else 1)
  }

  /** The header shows no unread messages exactly when every message has been read. */
  lemma {:induction false} UnreadCountZero(ms: seq<Message>)
    ensures UnreadCount(ms) == 0 <==> forall i :: 0 <= i < |ms| ==> ms[i].read
  {
    if ms != [] {
      var p := ms[..|ms| - 1];
      UnreadCountZero(p);
      assert forall i :: 0 <= i < |p| ==> p[i] == ms[i];
    }
  }

  lemma {:induction false} InsertContents(ms: seq<Message>, m: Message)
    ensures multiset(Insert(ms, m)) == multiset(ms) + multiset{m}
    ensures UnreadCount(Insert(ms, m)) == UnreadCount(ms) + (if m.read then 0 else 1)
  {
    if ms != [] && ms[|ms| - 1].timestamp < m.timestamp {
      var p, last := ms[..|ms| - 1], ms[|ms| - 1];
      assert ms == p + [last];
      InsertContents(p, m);
      var r := Insert(p, m);
      assert (r + [last])[..|r|] == r;
    }
  }

  lemma {:induction false} InsertOrder(ms: seq<Message>, m: Message)
    requires NewestFirstOrder(ms)
    ensures NewestFirstOrder(Insert(ms, m))
  {
    if ms != [] && ms[|ms| - 1].timestamp < m.timestamp {
      var p, last := ms[..|ms| - 1], ms[|ms| - 1];
      assert ms == p + [last];
      InsertOrder(p, m);
      InsertContents(p, m);
      var r := Insert(p, m);
      forall i | 0 <= i < |r| ensures r[i].timestamp >= last.timestamp {
        assert r[i] in multiset(r);
        assert r[i] in multiset(p) || r[i] == m;
      }
      InsertOrderStep(r, last);
    }
  }

  lemma InsertOrderStep(r: seq<Message>, last: Message)
    requires NewestFirstOrder(r)
    requires forall i :: 0 <= i < |r| ==> r[i].timestamp >= last.timestamp
    ensures NewestFirstOrder(r + [last])
  {
  }

  /** Sorting orders the list newest first, loses and adds nothing, and keeps the unread
      count. */
  lemma SortShape(ms: seq<Message>)
    ensures NewestFirstOrder(NewestFirst(ms))
    ensures multiset(NewestFirst(ms)) == multiset(ms)
    ensures UnreadCount(NewestFirst(ms)) == UnreadCount(ms)
  {
    SortOrdered(ms);
    SortContents(ms);
  }

  lemma {:induction false} SortOrdered(ms: seq<Message>)
    ensures NewestFirstOrder(NewestFirst(ms))
  {
    if ms != [] {
      SortOrdered(ms[..|ms| - 1]);
      InsertOrder(NewestFirst(ms[..|ms| - 1]), ms[|ms| - 1]);
    }
  }

  lemma {:induction false} SortContents(ms: seq<Message>)
    ensures multiset(NewestFirst(ms)) == multiset(ms)
    ensures UnreadCount(NewestFirst(ms)) == UnreadCount(ms)
  {
    if ms != [] {
      var p := ms[..|ms| - 1];
      SortContents(p);
      InsertContents(NewestFirst(p), ms[|ms| - 1]);
      assert ms == p + [ms[|ms| - 1]];
    }
  }

  /** A list already newest first is left as it is, so reloading an inbox that was stored in
      sorted order shows the same list. */
  lemma {:induction false} SortKeepsSorted(ms: seq<Message>)
    requires NewestFirstOrder(ms)
    ensures NewestFirst(ms) == ms
  {
    if ms != [] {
      var p := ms[..|ms| - 1];
      SortKeepsSorted(p);
      assert p + [ms[|ms| - 1]] == ms;
    }
  }

  /** `messages.map(...)`: the message with the given id, and every other copy of that id,
      marked read. */
  function MarkRead(ms: seq<Message>, id: string): (r: seq<Message>)
    ensures |r| == |ms|
    ensures forall i :: 0 <= i < |ms| ==>
              r[i] == (if ms[i].id == id then ms[i].(read := true) else ms[i])
  {
    seq(|ms|, i requires 0 <= i < |ms| => if ms[i].id == id then ms[i].(read := true) else ms[i])
  }

  /** Marking a message read twice is marking it once, and it keeps the list's order. */
  lemma MarkReadIdempotent(ms: seq<Message>, id: string)
    ensures MarkRead(MarkRead(ms, id), id) == MarkRead(ms, id)
    ensures NewestFirstOrder(ms) ==> NewestFirstOrder(MarkRead(ms, id))
  {
  }

  /** The unread messages that carry `id`. */
  function UnreadWith(ms: seq<Message>, id: string): nat
  {
    if ms == [] then 0
    else UnreadWith(ms[..|ms| - 1], id) + (if !ms[|ms| - 1].read && ms[|ms| - 1].id == id then 1 else 0)
  }

  lemma {:induction false} MarkReadCount(ms: seq<Message>, id: string)
    ensures UnreadCount(MarkRead(ms, id)) == UnreadCount(ms) - UnreadWith(ms, id)
    ensures UnreadWith(ms, id) <= UnreadCount(ms)
    ensures UnreadWith(ms, id) == 0 <==> forall i :: 0 <= i < |ms| && ms[i].id == id ==> ms[i].read
  {
    if ms != [] {
      var p := ms[..|ms| - 1];
      MarkReadCount(p, id);
      assert MarkRead(ms, id)[..|p|] == MarkRead(p, id);
    }
  }

  /** With distinct ids, opening an unread message lowers the unread count by exactly one. */
  lemma MarkReadLowersByOne(ms: seq<Message>, k: nat)
    requires k < |ms| && !ms[k].read
    requires NoDuplicates(IdsOfMessages(ms))
    ensures UnreadCount(MarkRead(ms, ms[k].id)) == UnreadCount(ms) - 1
  {
    MarkReadCount(ms, ms[k].id);
    UnreadWithUnique(ms, k);
  }

  function IdsOfMessages(ms: seq<Message>): (ids: seq<string>)
    ensures |ids| == |ms| && forall i :: 0 <= i < |ms| ==> ids[i] == ms[i].id
  {
    seq(|ms|, i requires 0 <= i < |ms| => ms[i].id)
  }

  lemma {:induction false} UnreadWithUnique(ms: seq<Message>, k: nat)
    requires k < |ms| && !ms[k].read
    requires NoDuplicates(IdsOfMessages(ms))
    ensures UnreadWith(ms, ms[k].id) == 1
  {
    var p := ms[..|ms| - 1];
    assert forall i :: 0 <= i < |p| ==> IdsOfMessages(p)[i] == IdsOfMessages(ms)[i];
    if k < |p| {
      UnreadWithUnique(p, k);
      assert IdsOfMessages(ms)[k] != IdsOfMessages(ms)[|ms| - 1];
    } else {
      MarkReadCount(p, ms[k].id);
      assert forall i :: 0 <= i < |p| ==> IdsOfMessages(ms)[i] != IdsOfMessages(ms)[k];
    }
  }

  /** The page's state: the list shown, the open message, and the reply dialog. */
  datatype Inbox = Inbox(messages: seq<Message>, selected: Option<Message>,
                         replyText: string, showReplyDialog: bool)

  /** `handleSelectMessage`: opening an unread message marks it read in the list and writes
      the list back to storage; the message becomes the open one either way. */
  function HandleSelectMessage(st: Inbox, storage: Storage, message: Message): (r: (Inbox, Storage))
    ensures r.0.selected == Some(message)
    ensures r.0.replyText == st.replyText && r.0.showReplyDialog == st.showReplyDialog
    ensures message.read ==> r.0.messages == st.messages && r.1 == storage
    ensures !message.read ==>
              && r.0.messages == MarkRead(st.messages, message.id)
              && r.1 == storage.(messageSystem := Some(MessageSystem(Some(r.0.messages))))
  {
    if message.read then (st.(selected := Some(message)), storage)
    else
      var updated := MarkRead(st.messages, message.id);
      (st.(messages := updated, selected := Some(message)),
       storage.(messageSystem := Some(MessageSystem(Some(updated)))))
  }

  /** Opening a message a second time changes neither the list nor storage, and after the
      first opening the stored inbox is the list on the page. */
  lemma SelectTwice(st: Inbox, storage: Storage, k: nat)
    requires k < |st.messages|
    ensures var (st1, s1) := HandleSelectMessage(st, storage, st.messages[k]);
            var (st2, s2) := HandleSelectMessage(st1, s1, st1.messages[k]);
            && st2.messages == st1.messages && s2 == s1
            && st1.messages[k].read
            && (!st.messages[k].read ==> StoredMessages(s1.messageSystem) == st1.messages)
  {
  }

  /** Opening a message keeps a newest-first list newest first, so reloading the page shows
      the same list. */
  lemma SelectThenReload(st: Inbox, storage: Storage, k: nat)
    requires k < |st.messages| && !st.messages[k].read
    requires NewestFirstOrder(st.messages)
    ensures var (st1, s1) := HandleSelectMessage(st, storage, st.messages[k]);
            LoadMessages(s1) == st1.messages
  {
    MarkReadIdempotent(st.messages, st.messages[k].id);
    SortKeepsSorted(MarkRead(st.messages, st.messages[k].id));
  }

  /** `handleSendReply`: a blank reply or one with no open message is refused and nothing
      changes; otherwise the dialog closes and the text is cleared. The reply is not stored. */
  function HandleSendReply(st: Inbox): (r: (bool, Inbox))
    ensures r.0 <==> !IsBlank(st.replyText) && st.selected.Some?
    ensures !r.0 ==> r.1 == st
    ensures r.0 ==> r.1 == st.(replyText := "", showReplyDialog := false)
  {
    TrimEmptyIffBlank(st.replyText);
    if Trim(st.replyText) == [] || st.selected.None? then (false, st)
    else (true, st.(replyText := "", showReplyDialog := false))
  }
}
