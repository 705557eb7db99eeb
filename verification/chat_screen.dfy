/** The state changes of the popup's chat screen (components/ChatScreen.tsx)
    when a message is sent, a session is created and a session is deleted.
    React state is one record; the session store is the model of
    utils/indexeddb.ts; the backend chat call is a parameter returning
    either the reply text or the thrown error's message. `Date.now()` is one
    `now` per handler. */
module ChatScreen {
  import opened JsText
  import opened Wrappers
  import opened SessionStore

  /** The screen's React state. */
  datatype ChatState = ChatState(
    sessions: seq<ChatSession>,
    current: Option<ChatSession>,
    input: string,
    loading: bool,
    error: string)

  /** One entry of the conversation history sent to the chat endpoint. */
  datatype Turn = Turn(role: Role, content: string)

  /** What `apiClient.chat` does: resolve with the reply, or reject with an
      error whose `message` may be empty. */
  datatype ChatReply = Replied(text: string) | Rejected(message: string)

  const NewChatTitle: string := "New Chat"
  const SendFailed: string := "Failed to send message"
  const TitleLength: nat := 50

  /** `text.slice(0, 50) + (text.length > 50 ? '...' : '')`. */
  function DeriveTitle(text: string): string {
    text[..Min(TitleLength, |text|)] + (if |text| > TitleLength then "..." else "")
  }

  /** A title is the message itself when it fits in 50 characters, and
      otherwise its first 50 characters followed by an ellipsis. */
  lemma DeriveTitleSpec(text: string)
    ensures |text| <= TitleLength ==> DeriveTitle(text) == text
    ensures |text| > TitleLength ==>
              |DeriveTitle(text)| == TitleLength + 3
              && DeriveTitle(text)[..TitleLength] == text[..TitleLength]
              && DeriveTitle(text)[TitleLength..] == "..."
    ensures |DeriveTitle(text)| <= TitleLength + 3
  {
  }

  function Turns(ms: seq<ChatMessage>): (ts: seq<Turn>)
    ensures |ts| == |ms|
    ensures forall i :: 0 <= i < |ms| ==> ts[i] == Turn(ms[i].role, ms[i].content)
  {
    if |ms| == 0 then [] else [Turn(ms[0].role, ms[0].content)] + Turns(ms[1..])
  }

  /** `createNewSession`. */
  function NewSession(now: nat, title: string): ChatSession {
    ChatSession("session_" + Decimal(now), title, [], now, now)
  }

  function CreateNewSession(st: ChatState, now: nat): (s: ChatState)
    ensures s.current.Some? && s.current.value.title == NewChatTitle && s.current.value.messages == []
    ensures s.sessions == st.sessions && s.input == st.input && s.loading == st.loading && s.error == st.error
  {
    st.(current := Some(NewSession(now, NewChatTitle)))
  }

  /** The session the message goes into, before the message is added: a
      fresh one titled after the message, the open one retitled if it is
      still an untouched "New Chat", or the open one as it is. */
  function TargetSession(current: Option<ChatSession>, text: string, now: nat): ChatSession {
    match current
    case None => NewSession(now, DeriveTitle(text))
    case Some(s) =>
      if |s.messages| == 0 && s.title == NewChatTitle then s.(title := DeriveTitle(text)) else s
  }

  /** The result of one `sendMessage`: the new screen state and store, and
      the history handed to the chat endpoint if the call was made. */
  datatype SendOutcome = SendOutcome(state: ChatState, db: Db, history: Option<seq<Turn>>)

  /** The `catch` and `finally` of `sendMessage`. */
  function Caught(st: ChatState, message: string): ChatState {
    st.(error := if message == "" then SendFailed else message, loading := false)
  }

  /** The user's message, stamped with `now`. */
  function UserMessage(text: string, now: nat): ChatMessage {
    ChatMessage("msg_" + Decimal(now), User, text, now)
  }

  /** The session with the user's message appended, as it is shown and
      written before the chat call. */
  function WithUserMessage(current: Option<ChatSession>, text: string, now: nat): ChatSession {
    var target := TargetSession(current, text, now);
    target.(messages := target.messages + [UserMessage(text, now)], updatedAt := now)
  }

  /** `sendMessage`. The two database writes and the listings after them
      are the store operations of the session model; a rejection of any of
      them, or of the chat call, lands in the `catch`. */
  function SendMessage(st: ChatState, db: Db, now: nat, chat: (string, seq<Turn>) -> ChatReply): SendOutcome {
    var text := Trim(st.input);
    if |text| == 0 || st.loading then SendOutcome(st, db, None)
    else
      var s1 := WithUserMessage(st.current, text, now);
      var st1 := st.(input := "", error := "", loading := true, current := Some(s1));
      match SaveSession(db, s1)
      case Failure(e) => SendOutcome(Caught(st1, e), db, None)
      case Success(db1) => AskAssistant(st1, db1, s1, text, now, chat)
  }

  /** The part of `sendMessage` after the user's message is stored: list
      the store, call the chat endpoint with the history, append and store
      the reply, and list the store again. */
  function AskAssistant(st1: ChatState, db1: Db, s1: ChatSession, text: string, now: nat,
                        chat: (string, seq<Turn>) -> ChatReply): SendOutcome {
    match GetAllSessions(db1)
    case Failure(e) => SendOutcome(Caught(st1, e), db1, None)
    case Success(all1) =>
      var st2 := st1.(sessions := all1);
      var history := Turns(s1.messages);
      match chat(text, history)
      case Rejected(m) => SendOutcome(Caught(st2, m), db1, Some(history))
      case Replied(reply) =>
        var assistant := ChatMessage("msg_" + Decimal(now) + "_assistant", Assistant, reply, now);
        var s2 := s1.(messages := s1.messages + [assistant], updatedAt := now);
        var st3 := st2.(current := Some(s2));
        match SaveSession(db1, s2)
        case Failure(e) => SendOutcome(Caught(st3, e), db1, Some(history))
        case Success(db2) =>
          match GetAllSessions(db2)
          case Failure(e) => SendOutcome(Caught(st3, e), db2, Some(history))
          case Success(all2) => SendOutcome(st3.(sessions := all2, loading := false), db2, Some(history))
  }

  lemma TurnsAppend(ms: seq<ChatMessage>, m: ChatMessage)
    ensures Turns(ms + [m]) == Turns(ms) + [Turn(m.role, m.content)]
  {
  }

  /** Blank input, or a send while a reply is pending, changes nothing. */
  lemma SendGuard(st: ChatState, db: Db, now: nat, chat: (string, seq<Turn>) -> ChatReply)
    ensures (AllWhitespace(st.input) || st.loading) <==> SendMessage(st, db, now, chat) == SendOutcome(st, db, None)
  {
    var o := SendMessage(st, db, now, chat);
    if !AllWhitespace(st.input) && !st.loading {
      assert o.state.input == "";
      assert st.input != "";
    }
  }

  /** The title is derived from the message exactly when there is no open
      session, or the open one has no messages and is still "New Chat";
      otherwise it is kept. This holds however the send ends. */
  lemma SendTitle(st: ChatState, db: Db, now: nat, chat: (string, seq<Turn>) -> ChatReply)
    requires !AllWhitespace(st.input) && !st.loading
    ensures SendMessage(st, db, now, chat).state.current.Some?
    ensures var title := SendMessage(st, db, now, chat).state.current.value.title;
            if st.current.None? || (|st.current.value.messages| == 0 && st.current.value.title == NewChatTitle)
            then title == DeriveTitle(Trim(st.input))
            else title == st.current.value.title
    ensures st.current.Some? ==> SendMessage(st, db, now, chat).state.current.value.id == st.current.value.id
  {
  }

  /** Every send that passes the guard ends with the input cleared and
      nothing loading. */
  lemma SendSettles(st: ChatState, db: Db, now: nat, chat: (string, seq<Turn>) -> ChatReply)
    requires !AllWhitespace(st.input) && !st.loading
    ensures SendMessage(st, db, now, chat).state.input == ""
    ensures !SendMessage(st, db, now, chat).state.loading
  {
  }

  /** The messages the open session had before the send. */
  function PriorMessages(st: ChatState): seq<ChatMessage> {
    if st.current.Some? then st.current.value.messages else []
  }

  /** The history given to the chat endpoint is the session's messages with
      the user's (trimmed) message last. */
  lemma SendHistory(st: ChatState, db: Db, now: nat, chat: (string, seq<Turn>) -> ChatReply)
    requires !AllWhitespace(st.input) && !st.loading
    ensures var h := SendMessage(st, db, now, chat).history;
            h.Some? ==>
              |h.value| == |PriorMessages(st)| + 1
              && h.value[|h.value| - 1] == Turn(User, Trim(st.input))
              && h.value[..|h.value| - 1] == Turns(PriorMessages(st))
    ensures db.Open? ==> SendMessage(st, db, now, chat).history.Some?
  {
    var text := Trim(st.input);
    var s1 := WithUserMessage(st.current, text, now);
    assert s1.messages == PriorMessages(st) + [UserMessage(text, now)];
    TurnsAppend(PriorMessages(st), UserMessage(text, now));
  }

  /** When the chat call succeeds the open session ends with the user's
      message and then the assistant's reply, after the messages it had, and
      no error is shown. */
  lemma SendReplied(st: ChatState, db: Db, now: nat, chat: (string, seq<Turn>) -> ChatReply)
    requires !AllWhitespace(st.input) && !st.loading && db.Open? && Valid(db.sessions)
    requires chat(Trim(st.input), Turns(PriorMessages(st) + [UserMessage(Trim(st.input), now)])).Replied?
    ensures var o := SendMessage(st, db, now, chat);
            var ms := o.state.current.value.messages;
            var reply := chat(Trim(st.input), o.history.value).text;
            o.state.current.Some? && o.history.Some?
            && |ms| == |PriorMessages(st)| + 2
            && ms[..|PriorMessages(st)|] == PriorMessages(st)
            && ms[|ms| - 2].role == User && ms[|ms| - 2].content == Trim(st.input)
            && ms[|ms| - 1].role == Assistant && ms[|ms| - 1].content == reply
            && o.state.error == ""
  {
  }

  /** After a successful reply the store holds the open session as shown,
      stays ordered by key, and the sidebar lists the store. */
  lemma SendRepliedStored(st: ChatState, db: Db, now: nat, chat: (string, seq<Turn>) -> ChatReply)
    requires !AllWhitespace(st.input) && !st.loading && db.Open? && Valid(db.sessions)
    requires chat(Trim(st.input), Turns(PriorMessages(st) + [UserMessage(Trim(st.input), now)])).Replied?
    ensures var o := SendMessage(st, db, now, chat);
            o.state.current.Some? && o.db.Open? && Valid(o.db.sessions)
            && Get(o.db.sessions, o.state.current.value.id) == o.state.current
            && GetAllSessions(o.db) == Success(o.state.sessions)
  {
    var text := Trim(st.input);
    var s1 := WithUserMessage(st.current, text, now);
    PutSpec(db.sessions, s1);
    var db1 := Open(Put(db.sessions, s1));
    var reply := chat(text, Turns(s1.messages)).text;
    var s2 := s1.(messages := s1.messages + [ChatMessage("msg_" + Decimal(now) + "_assistant", Assistant, reply, now)], updatedAt := now);
    PutSpec(db1.sessions, s2);
  }

  /** When the chat call fails the user's message stays in the open session
      and in the store, and the error shown is the call's message, or the
      generic one when it has none. */
  lemma SendRejected(st: ChatState, db: Db, now: nat, chat: (string, seq<Turn>) -> ChatReply)
    requires !AllWhitespace(st.input) && !st.loading && db.Open? && Valid(db.sessions)
    requires chat(Trim(st.input), Turns(PriorMessages(st) + [UserMessage(Trim(st.input), now)])).Rejected?
    ensures var o := SendMessage(st, db, now, chat);
            var m := chat(Trim(st.input), o.history.value).message;
            var ms := o.state.current.value.messages;
            o.state.current.Some? && o.history.Some?
            && ms == PriorMessages(st) + [UserMessage(Trim(st.input), now)]
            && o.state.error == (if m == "" then SendFailed else m)
            && Get(o.db.sessions, o.state.current.value.id) == o.state.current
  {
    PutSpec(db.sessions, WithUserMessage(st.current, Trim(st.input), now));
  }

  /** Before the store is opened the first write fails: the user's message
      is shown but not stored, no chat call is made, and the error is the
      store's. */
  lemma SendWithoutStore(st: ChatState, now: nat, chat: (string, seq<Turn>) -> ChatReply)
    requires !AllWhitespace(st.input) && !st.loading
    ensures var o := SendMessage(st, Uninitialized, now, chat);
            o.db == Uninitialized && o.history.None? && o.state.error == NotInitialized
            && o.state.current.Some? && |o.state.current.value.messages| == |PriorMessages(st)| + 1
  {
  }

  /** A session just created by "New Chat" is retitled after the first
      message sent into it. */
  lemma NewChatTakesFirstMessageTitle(st: ChatState, db: Db, now: nat, later: nat, chat: (string, seq<Turn>) -> ChatReply)
    requires !AllWhitespace(st.input) && !st.loading
    ensures SendMessage(CreateNewSession(st, now), db, later, chat).state.current.value.title == DeriveTitle(Trim(st.input))
  {
    SendTitle(CreateNewSession(st, now), db, later, chat);
  }

  /** `deleteSession`: on success the list is reloaded and the open session
      is closed if it was the one deleted; a failure is only logged. */
  function DeleteSessionHandler(st: ChatState, db: Db, id: string): (Db, ChatState) {
    match SessionStore.DeleteSession(db, id)
    case Failure(_) => (db, st)
    case Success(db1) =>
      match GetAllSessions(db1)
      case Failure(_) => (db1, st)
      case Success(all) =>
        (db1, st.(sessions := all, current := if st.current.Some? && st.current.value.id == id then None else st.current))
  }

  /** Deleting the open session closes it; deleting another leaves it open.
      The deleted session is gone from the store and from the list. */
  lemma DeleteSessionEffect(st: ChatState, db: Db, id: string)
    requires db.Open? && Valid(db.sessions)
    ensures var (db1, st1) := DeleteSessionHandler(st, db, id);
            (st.current.Some? && st.current.value.id == id ==> st1.current.None?)
            && (!(st.current.Some? && st.current.value.id == id) ==> st1.current == st.current)
            && Get(db1.sessions, id).None?
            && (forall i :: 0 <= i < |st1.sessions| ==> st1.sessions[i].id != id)
            && |st1.sessions| == |db1.sessions|
  {
    DeleteSpec(db.sessions, id);
    var db1 := Open(Delete(db.sessions, id));
    GetAllSessionsSpec(db1);
    var all := GetAllSessions(db1).value;
    forall i | 0 <= i < |all| ensures all[i].id != id {
      assert all[i] in multiset(db1.sessions);
    }
  }

  /** A failed delete changes nothing on screen. */
  lemma DeleteWithoutStore(st: ChatState, id: string)
    ensures DeleteSessionHandler(st, Uninitialized, id) == (Uninitialized, st)
  {
  }
}
