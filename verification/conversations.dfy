/**
 * The conversation store of the chat client: the list of conversations,
 * the active conversation, and the busy flag that serialises sends.
 *
 * The assistant's reply is simulated by a timer in the program; here the
 * timer is the store's `pending` field, set by a send and consumed by the
 * separate `ReplyArrives` transition. Identifiers and timestamps that the
 * program takes from the clock are parameters: `now` where the program reads
 * the clock once, and `idClock` and `tsClock` for the two separate readings
 * that give a message its id and its timestamp.
 */
module Conversations {
  import opened Wrappers
  import opened Decimal
  import opened Lists

  datatype Sender = User | Bot

  datatype Message = Message(id: int, text: string, from: Sender, ts: int)

  datatype Conversation = Conversation(id: int, title: string, messages: seq<Message>)

  /** The reply a send has scheduled: which conversation it goes to and what was said. */
  datatype Reply = Reply(convId: int, text: string)

  datatype Store = Store(
    conversations: seq<Conversation>,
    activeId: Option<int>,
    isBusy: bool,
    pending: Option<Reply>)

  /** What browser storage holds: the serialised list and the last truthy active id, each possibly absent. */
  datatype Snapshot = Snapshot(conversations: Option<seq<Conversation>>, activeId: Option<int>)

  /** A conversation id used as a send target must be truthy: neither null nor 0. */
  predicate IsTarget(id: Option<int>) {
    id.Some? && id.value != 0
  }

  predicate HasConversation(cs: seq<Conversation>, id: int) {
    exists k :: 0 <= k < |cs| && cs[k].id == id
  }

  /** The active id is either null or names a conversation of the list. */
  predicate ActiveValid(s: Store) {
    s.activeId.None? || HasConversation(s.conversations, s.activeId.value)
  }

  /** The busy flag is raised exactly while a reply is outstanding, so at most one is. */
  predicate BusyMatchesPending(s: Store) {
    s.isBusy <==> s.pending.Some?
  }

  function TitleFor(k: nat): string {
    "Conversation " + Show(k)
  }

  function ReplyText(text: string): string {
    "AI reply to: \"" + text + "\""
  }

  // ---------------------------------------------------------------------
  // Start-up and persistence

  /** The store as the provider first renders it, from what storage holds. */
  function Initial(saved: Snapshot, now: int): (s: Store)
    ensures !s.isBusy && s.pending.None?
    ensures saved.conversations.None? ==>
      s.conversations == [Conversation(now, TitleFor(1), [])]
    ensures saved.conversations.Some? ==> s.conversations == saved.conversations.value
    ensures saved.activeId.Some? ==> s.activeId == saved.activeId
    ensures saved.activeId.None? && s.conversations != [] ==> s.activeId == Some(s.conversations[0].id)
    ensures saved.activeId.None? && s.conversations == [] ==> s.activeId.None?
  {
    assert Show(1) == "1";
    assert TitleFor(1) == "Conversation 1";
    var convs := saved.conversations.GetOr([Conversation(now, "Conversation 1", [])]);
    var active := if saved.activeId.Some? then saved.activeId
                  else if convs == [] then None else Some(convs[0].id);
    Store(convs, active, false, None)
  }

  /**
   * Writes the store to storage: the list always, the active id only when it
   * is truthy. A falsy active id leaves whatever id was saved before.
   */
  function Persist(s: Store, saved: Snapshot): (r: Snapshot)
    ensures r.conversations == Some(s.conversations)
    ensures IsTarget(s.activeId) ==> r.activeId == s.activeId
    ensures !IsTarget(s.activeId) ==> r.activeId == saved.activeId
  {
    Snapshot(Some(s.conversations), if IsTarget(s.activeId) then s.activeId else saved.activeId)
  }

  /** With nothing saved the store starts with one empty "Conversation 1", active, idle. */
  lemma FreshStart(now: int)
    ensures var s := Initial(Snapshot(None, None), now);
      && s.conversations == [Conversation(now, "Conversation 1", [])]
      && s.activeId == Some(now)
      && ActiveValid(s) && BusyMatchesPending(s)
  {
  }

  /** Reloading what was persisted restores the conversations, and the active id when it was truthy. */
  lemma ReloadRestores(s: Store, saved: Snapshot, now: int)
    ensures Initial(Persist(s, saved), now).conversations == s.conversations
    ensures IsTarget(s.activeId) ==> Initial(Persist(s, saved), now).activeId == s.activeId
    ensures !IsTarget(s.activeId) && saved.activeId.Some? ==>
      Initial(Persist(s, saved), now).activeId == saved.activeId
  {
  }

  /**
   * Because a falsy active id is never written, storage keeps the id of a
   * conversation that has since been removed: remove the only conversation,
   * reload, and the restored active id names no conversation.
   */
  lemma StaleActiveAfterReload(c: Conversation, now: int)
    requires c.id != 0
    ensures var before := Store([c], Some(c.id), false, None);
      var after := Remove(before, c.id);
      var reloaded := Initial(Persist(after, Persist(before, Snapshot(None, None))), now);
      reloaded.activeId == Some(c.id) && !ActiveValid(reloaded)
  {
  }

  /** Persisting that clears the stored active id when the active id is falsy. */
  function PersistClearing(s: Store, saved: Snapshot): (r: Snapshot)
    ensures r.conversations == Some(s.conversations)
    ensures IsTarget(s.activeId) ==> r.activeId == s.activeId
    ensures !IsTarget(s.activeId) ==> r.activeId.None?
  {
    Snapshot(Some(s.conversations), if IsTarget(s.activeId) then s.activeId else None)
  }

  /** With the stored id cleared, a store whose active id is valid reloads into one whose active id is valid. */
  lemma ReloadKeepsActiveValid(s: Store, saved: Snapshot, now: int)
    requires ActiveValid(s)
    ensures ActiveValid(Initial(PersistClearing(s, saved), now))
    ensures Initial(PersistClearing(s, saved), now).conversations == s.conversations
  {
  }

  // ---------------------------------------------------------------------
  // List helpers

  /** The conversations whose id differs from `id`, in their original order. */
  function Without(cs: seq<Conversation>, id: int): (r: seq<Conversation>)
    ensures forall c :: c in r <==> c in cs && c.id != id
  {
    Filter(cs, (c: Conversation) => c.id != id)
  }

  /** The id of the first conversation whose id differs from `id`, or null when there is none. */
  function FirstOther(cs: seq<Conversation>, id: int): (r: Option<int>)
    ensures r.Some? ==> r.value != id && HasConversation(cs, r.value)
    ensures r.None? ==> forall k :: 0 <= k < |cs| ==> cs[k].id == id
    decreases |cs|
  {
    if cs == [] then None
    else if cs[0].id != id then Some(cs[0].id)
    else
      var r := FirstOther(cs[1..], id);
      assert r.Some? ==> HasConversation(cs, r.value) by {
        if r.Some? {
          var k :| 0 <= k < |cs[1..]| && cs[1..][k].id == r.value;
          assert cs[k + 1].id == r.value;
        }
      }
      assert r.None? ==> forall k :: 1 <= k < |cs| ==> cs[k].id == id by {
        if r.None? {
          forall k | 1 <= k < |cs|
            ensures cs[k].id == id
          {
            assert cs[k] == cs[1..][k - 1];
          }
        }
      }
      r
  }

  /** Every conversation with id `convId` gains `m` at the end of its messages; the others stay as they are. */
  function AppendTo(cs: seq<Conversation>, convId: int, m: Message): (r: seq<Conversation>)
    ensures |r| == |cs|
    ensures forall k :: 0 <= k < |cs| ==> r[k].id == cs[k].id && r[k].title == cs[k].title
    ensures forall k :: 0 <= k < |cs| && cs[k].id == convId ==> r[k].messages == cs[k].messages + [m]
    ensures forall k :: 0 <= k < |cs| && cs[k].id != convId ==> r[k] == cs[k]
  {
    seq(|cs|, k requires 0 <= k < |cs| =>
      if cs[k].id == convId then cs[k].(messages := cs[k].messages + [m]) else cs[k])
  }

  // ---------------------------------------------------------------------
  // Operations

  /** `newConversation`: prepends an empty conversation titled after the current count and activates it. */
  function NewConversation(s: Store, now: int): (r: Store)
    ensures |r.conversations| == |s.conversations| + 1
    ensures r.conversations[0] == Conversation(now, TitleFor(|s.conversations| + 1), [])
    ensures r.conversations[1..] == s.conversations
    ensures r.activeId == Some(now)
    ensures r.isBusy == s.isBusy && r.pending == s.pending
  {
    var conv := Conversation(now, "Conversation " + Show(|s.conversations| + 1), []);
    s.(conversations := [conv] + s.conversations, activeId := Some(now))
  }

  /** `selectConversation`: sets the active id, whether or not a conversation has it. */
  function Select(s: Store, id: Option<int>): (r: Store)
    ensures r.activeId == id
    ensures r.conversations == s.conversations && r.isBusy == s.isBusy && r.pending == s.pending
  {
    s.(activeId := id)
  }

  /**
   * `removeConversation`: drops every conversation with the id; if it was
   * the active one, the first other conversation of the list as it was
   * before the removal becomes active, or none.
   */
  function Remove(s: Store, id: int): (r: Store)
    ensures r.conversations == Without(s.conversations, id)
    ensures s.activeId == Some(id) ==> r.activeId == FirstOther(s.conversations, id)
    ensures s.activeId != Some(id) ==> r.activeId == s.activeId
    ensures r.isBusy == s.isBusy && r.pending == s.pending
  {
    var active := if s.activeId == Some(id) then FirstOther(s.conversations, id) else s.activeId;
    s.(conversations := Without(s.conversations, id), activeId := active)
  }

  /** `addMessage`: appends the message to every conversation with the id; an unknown id changes nothing. */
  function AddMessage(s: Store, convId: int, m: Message): (r: Store)
    ensures r.conversations == AppendTo(s.conversations, convId, m)
    ensures r.activeId == s.activeId && r.isBusy == s.isBusy && r.pending == s.pending
  {
    s.(conversations := AppendTo(s.conversations, convId, m))
  }

  /**
   * What `sendUserMessage` and `resendAsUser` share: refused when the target
   * is falsy or a reply is outstanding; otherwise the user's message is
   * appended, the store turns busy and the reply is scheduled.
   */
  function Send(s: Store, target: Option<int>, text: string, idClock: int, tsClock: int): (r: Store)
    ensures !IsTarget(target) || s.isBusy ==> r == s
    ensures IsTarget(target) && !s.isBusy ==>
      && r.conversations == AppendTo(s.conversations, target.value, Message(idClock, text, User, tsClock))
      && r.activeId == s.activeId
      && r.isBusy
      && r.pending == Some(Reply(target.value, text))
  {
    if !IsTarget(target) || s.isBusy then s
    else
      var t := target.value;
      var userMsg := Message(idClock, text, User, tsClock);
      AddMessage(s, t, userMsg).(isBusy := true, pending := Some(Reply(t, text)))
  }

  /** `sendUserMessage`: a send to the active conversation. */
  function SendUserMessage(s: Store, text: string, idClock: int, tsClock: int): (r: Store)
    ensures !IsTarget(s.activeId) || s.isBusy ==> r == s
    ensures IsTarget(s.activeId) && !s.isBusy ==>
      && r.conversations == AppendTo(s.conversations, s.activeId.value, Message(idClock, text, User, tsClock))
      && r.activeId == s.activeId && r.isBusy
      && r.pending == Some(Reply(s.activeId.value, text))
  {
    Send(s, s.activeId, text, idClock, tsClock)
  }

  /** `resendAsUser`: a send to a conversation named by the caller, active or not. */
  function ResendAsUser(s: Store, convId: Option<int>, text: string, idClock: int, tsClock: int): (r: Store)
    ensures !IsTarget(convId) || s.isBusy ==> r == s
    ensures IsTarget(convId) && !s.isBusy ==>
      && r.conversations == AppendTo(s.conversations, convId.value, Message(idClock, text, User, tsClock))
      && r.activeId == s.activeId && r.isBusy
      && r.pending == Some(Reply(convId.value, text))
  {
    Send(s, convId, text, idClock, tsClock)
  }

  /**
   * The scheduled reply fires: the bot's answer goes to the conversation the
   * send targeted (if it still exists) and the store is idle again. With no
   * reply scheduled nothing happens.
   */
  function ReplyArrives(s: Store, idClock: int, tsClock: int): (r: Store)
    ensures s.pending.None? ==> r == s
    ensures s.pending.Some? ==>
      && r.conversations == AppendTo(s.conversations, s.pending.value.convId,
                                     Message(idClock + 1, ReplyText(s.pending.value.text), Bot, tsClock))
      && r.activeId == s.activeId
      && !r.isBusy && r.pending.None?
  {
    match s.pending
    case None => s
    case Some(reply) =>
      var botMsg := Message(idClock + 1, ReplyText(reply.text), Bot, tsClock);
      AddMessage(s, reply.convId, botMsg).(isBusy := false, pending := None)
  }

  // ---------------------------------------------------------------------
  // Properties

  /** The new conversation's title is "Conversation " followed by the decimal count, previous count plus one. */
  lemma NewConversationTitle(s: Store, now: int)
    ensures var t := NewConversation(s, now).conversations[0].title;
      && |t| > 13 && t[..13] == "Conversation "
      && AllDigits(t[13..]) && ValueOf(t[13..]) == |s.conversations| + 1
  {
    var t := NewConversation(s, now).conversations[0].title;
    assert t[13..] == Show(|s.conversations| + 1);
    ValueOfShow(|s.conversations| + 1);
  }

  /** Creating a conversation makes it active, so the active id always names a conversation afterwards. */
  lemma NewConversationKeepsInvariants(s: Store, now: int)
    requires BusyMatchesPending(s)
    ensures ActiveValid(NewConversation(s, now)) && BusyMatchesPending(NewConversation(s, now))
  {
  }

  /** Selecting the same id twice is selecting it once. */
  lemma SelectIdempotent(s: Store, id: Option<int>)
    ensures Select(Select(s, id), id) == Select(s, id)
  {
  }

  /** Removing an id no conversation has leaves the list as it was. */
  lemma WithoutAbsent(cs: seq<Conversation>, id: int)
    requires !HasConversation(cs, id)
    ensures Without(cs, id) == cs
  {
    FilterKeepsAll(cs, (c: Conversation) => c.id != id);
  }

  /** Removal keeps the survivors in order: filtering a concatenation filters each part in place. */
  lemma WithoutAppend(a: seq<Conversation>, b: seq<Conversation>, id: int)
    ensures Without(a + b, id) == Without(a, id) + Without(b, id)
  {
    FilterAppend(a, b, (c: Conversation) => c.id != id);
  }

  /** The first conversation of the old list with another id is the head of the filtered list. */
  lemma {:induction false} FirstOtherIsHead(cs: seq<Conversation>, id: int)
    ensures var rest := Without(cs, id);
      FirstOther(cs, id) == if rest == [] then None else Some(rest[0].id)
    decreases |cs|
  {
    if cs != [] && cs[0].id == id {
      FirstOtherIsHead(cs[1..], id);
    }
  }

  /** After removing the active conversation, the new active one is the first that remains, or none. */
  lemma RemoveActiveFallsBack(s: Store, id: int)
    requires s.activeId == Some(id)
    ensures var r := Remove(s, id);
      r.activeId == if r.conversations == [] then None else Some(r.conversations[0].id)
  {
    FirstOtherIsHead(s.conversations, id);
  }

  /** Removing the one and only conversation, while active, empties the list and clears the active id. */
  lemma RemoveOnlyConversation(c: Conversation, busy: bool, pending: Option<Reply>)
    ensures Remove(Store([c], Some(c.id), busy, pending), c.id).conversations == []
    ensures Remove(Store([c], Some(c.id), busy, pending), c.id).activeId == None
  {
  }

  /** Removal keeps the active id null or pointing at a conversation that remains. */
  lemma RemoveKeepsActiveValid(s: Store, id: int)
    requires ActiveValid(s)
    ensures ActiveValid(Remove(s, id))
  {
  }

  /** Same conversations, same order, and each one's messages only grew at the end. */
  predicate Extends(before: seq<Conversation>, after: seq<Conversation>) {
    && |after| == |before|
    && forall k :: 0 <= k < |before| ==>
         && after[k].id == before[k].id
         && after[k].title == before[k].title
         && before[k].messages <= after[k].messages
  }

  /** Sends and replies never remove, reorder or rewrite a message: they only append. */
  lemma SendsAppendOnly(s: Store, target: Option<int>, text: string, idClock: int, tsClock: int)
    ensures Extends(s.conversations, Send(s, target, text, idClock, tsClock).conversations)
    ensures Extends(s.conversations, ReplyArrives(s, idClock, tsClock).conversations)
  {
  }

  /** While a reply is outstanding, a second send of either kind changes nothing. */
  lemma SecondSendRefused(s: Store, target: Option<int>, text: string, idClock: int, tsClock: int,
                          target2: Option<int>, text2: string, idClock2: int, tsClock2: int)
    requires IsTarget(target) && !s.isBusy
    ensures var r := Send(s, target, text, idClock, tsClock);
      && Send(r, target2, text2, idClock2, tsClock2) == r
      && SendUserMessage(r, text2, idClock2, tsClock2) == r
      && ResendAsUser(r, target2, text2, idClock2, tsClock2) == r
  {
  }

  /**
   * A send followed by its reply: the target conversation gains exactly the
   * user's message and then the bot's answer, every other conversation is
   * untouched, and the store is idle again.
   */
  lemma SendThenReply(s: Store, target: int, text: string, idClock: int, tsClock: int,
                      laterId: int, laterTs: int)
    requires target != 0 && !s.isBusy
    ensures var r := ReplyArrives(Send(s, Some(target), text, idClock, tsClock), laterId, laterTs);
      && |r.conversations| == |s.conversations|
      && (forall k :: 0 <= k < |s.conversations| && s.conversations[k].id == target ==>
            r.conversations[k].messages == s.conversations[k].messages
              + [Message(idClock, text, User, tsClock), Message(laterId + 1, ReplyText(text), Bot, laterTs)])
      && (forall k :: 0 <= k < |s.conversations| && s.conversations[k].id != target ==>
            r.conversations[k] == s.conversations[k])
      && !r.isBusy && r.pending.None? && r.activeId == s.activeId
  {
  }

  /** Everything that can happen to the store: the provider's operations and the timer firing. */
  datatype Event =
    | NewEv(now: int)
    | SelectEv(selected: Option<int>)
    | RemoveEv(removed: int)
    | AddEv(convId: int, m: Message)
    | SendEv(text: string, idClock: int, tsClock: int)
    | ResendEv(target: Option<int>, text: string, idClock: int, tsClock: int)
    | ReplyEv(idClock: int, tsClock: int)

  function Step(s: Store, e: Event): Store {
    match e
    case NewEv(now) => NewConversation(s, now)
    case SelectEv(id) => Select(s, id)
    case RemoveEv(id) => Remove(s, id)
    case AddEv(convId, m) => AddMessage(s, convId, m)
    case SendEv(text, idc, tsc) => SendUserMessage(s, text, idc, tsc)
    case ResendEv(convId, text, idc, tsc) => ResendAsUser(s, convId, text, idc, tsc)
    case ReplyEv(idc, tsc) => ReplyArrives(s, idc, tsc)
  }

  function Run(s: Store, events: seq<Event>): Store
    decreases |events|
  {
    if events == [] then s else Run(Step(s, events[0]), events[1..])
  }

  /** Every event keeps the busy flag raised exactly while one reply is outstanding. */
  lemma StepKeepsBusyMatchesPending(s: Store, e: Event)
    requires BusyMatchesPending(s)
    ensures BusyMatchesPending(Step(s, e))
  {
  }

  /** Selecting an id that no conversation has is the one event that can leave the active id dangling. */
  predicate SelectsKnown(s: Store, e: Event) {
    e.SelectEv? ==> e.selected.None? || HasConversation(s.conversations, e.selected.value)
  }

  /** Every event but a stray select keeps the active id null or naming a conversation. */
  lemma StepKeepsActiveValid(s: Store, e: Event)
    requires ActiveValid(s) && SelectsKnown(s, e)
    ensures ActiveValid(Step(s, e))
  {
  }

  /** Along any run, at most one reply is ever outstanding, and it is outstanding exactly while busy. */
  lemma {:induction false} RunKeepsBusyMatchesPending(s: Store, events: seq<Event>)
    requires BusyMatchesPending(s)
    ensures BusyMatchesPending(Run(s, events))
    decreases |events|
  {
    if events != [] {
      StepKeepsBusyMatchesPending(s, events[0]);
      RunKeepsBusyMatchesPending(Step(s, events[0]), events[1..]);
    }
  }

  /**
   * Along a run whose every select names null or a conversation that exists
   * when it happens, the active id stays null or names a conversation.
   */
  lemma {:induction false} RunKeepsActiveValid(s: Store, events: seq<Event>)
    requires ActiveValid(s)
    requires forall i :: 0 <= i < |events| ==> SelectsKnown(Run(s, events[..i]), events[i])
    ensures ActiveValid(Run(s, events))
    decreases |events|
  {
    if events != [] {
      assert events[..0] == [];
      StepKeepsActiveValid(s, events[0]);
      var t := Step(s, events[0]);
      forall i | 0 <= i < |events[1..]|
        ensures SelectsKnown(Run(t, events[1..][..i]), events[1..][i])
      {
        assert events[..i + 1][0] == events[0];
        assert events[..i + 1][1..] == events[1..][..i];
        assert SelectsKnown(Run(s, events[..i + 1]), events[i + 1]);
      }
      RunKeepsActiveValid(t, events[1..]);
    }
  }
}
