/**
 * The chat message list of the browser client (`src/hooks/useMessages.ts`):
 * the list and its two flags are the fields of a session object, and each
 * operation of the hook is a method that updates them. Message ids and clock
 * readings are parameters; the network call is given as its outcome: the
 * request was refused, or the reply arrived as a sequence of decoded pieces,
 * possibly followed by a read error.
 */
module MessagesHook {
  import opened Wrappers
  import opened Strings
  import opened Types
  import opened TextUtils

  const Greeting: string :=
    "Hi! I'm your assistant powered by Vapi. You can type to me or click the microphone to start a voice conversation!"
  const SendFailure: string :=
    "I'm sorry, I couldn't process your message right now. Please check your connection and try again."

  /** How the call to the chat endpoint went. */
  datatype Reply =
    | Refused
    | Streamed(pieces: seq<string>, readFails: bool)

  /** The request body's messages: role and content of each message, in order. */
  function Project(ms: seq<Message>): (r: seq<RoleContent>)
    ensures |r| == |ms| && forall k :: 0 <= k < |ms| ==> r[k] == RoleContent(RoleName(ms[k].role), ms[k].content)
  {
    seq(|ms|, k requires 0 <= k < |ms| => RoleContent(RoleName(ms[k].role), ms[k].content))
  }

  /** `prev.filter(m => m.id !== id)`. */
  function Without(ms: seq<Message>, id: string): (r: seq<Message>)
    ensures |r| <= |ms|
    ensures forall m :: m in r <==> m in ms && m.id != id
  {
    if ms == [] then []
    else if ms[0].id == id then Without(ms[1..], id)
    else [ms[0]] + Without(ms[1..], id)
  }

  /** The filter keeps the relative order of the messages it keeps. */
  lemma {:induction false} WithoutAppend(a: seq<Message>, b: seq<Message>, id: string)
    ensures Without(a + b, id) == Without(a, id) + Without(b, id)
  {
    if a == [] {
      assert a + b == b;
    } else {
      assert (a + b)[1..] == a[1..] + b;
      WithoutAppend(a[1..], b, id);
    }
  }

  /** A list without the id is returned as it is. */
  lemma {:induction false} WithoutAbsent(ms: seq<Message>, id: string)
    requires forall k :: 0 <= k < |ms| ==> ms[k].id != id
    ensures Without(ms, id) == ms
  {
    if ms != [] {
      WithoutAbsent(ms[1..], id);
    }
  }

  /** `updateAssistantMessage`'s new list: every message with the id removed, then the assistant message at the end. */
  function Updated(ms: seq<Message>, id: string, content: string, now: int): seq<Message> {
    Without(ms, id) + [Message(id, Assistant, content, now)]
  }

  /**
   * After an update exactly one message has the id: the last, an assistant
   * message with the new content. The other messages are the old ones without
   * the id, in their order, so updating again replaces only that message.
   */
  lemma UpdatedShape(ms: seq<Message>, id: string, content: string, now: int)
    ensures var r := Updated(ms, id, content, now);
      && r != []
      && r[|r| - 1] == Message(id, Assistant, content, now)
      && (forall k :: 0 <= k < |r| - 1 ==> r[k].id != id)
      && r[..|r| - 1] == Without(ms, id)
      && Without(r, id) == Without(ms, id)
  {
    var w := Without(ms, id);
    var r := Updated(ms, id, content, now);
    forall k | 0 <= k < |r| - 1 ensures r[k].id != id {
      assert r[k] == w[k] && w[k] in w;
    }
    WithoutAppend(w, [Message(id, Assistant, content, now)], id);
    assert Without([Message(id, Assistant, content, now)], id) == [];
    WithoutAbsent(w, id);
  }

  /** Updating an id the list does not hold is a plain append. */
  lemma UpdateAbsentAppends(ms: seq<Message>, id: string, content: string, now: int)
    requires forall k :: 0 <= k < |ms| ==> ms[k].id != id
    ensures Updated(ms, id, content, now) == ms + [Message(id, Assistant, content, now)]
  {
    WithoutAbsent(ms, id);
  }

  /** The list after the reads of `pieces`: each read extends `acc` and updates the assistant message with it. */
  function Replay(ms: seq<Message>, id: string, acc: string, pieces: seq<string>, now: int): seq<Message>
    decreases |pieces|
  {
    if pieces == [] then ms
    else Replay(Updated(ms, id, acc + pieces[0], now), id, acc + pieces[0], pieces[1..], now)
  }

  /**
   * After the reads, the list is the old one without the id followed by one
   * assistant message holding everything read so far: `acc` and all the pieces.
   */
  lemma {:induction false} ReplayAccumulates(ms: seq<Message>, id: string, acc: string, pieces: seq<string>, now: int)
    requires pieces != []
    ensures Replay(ms, id, acc, pieces, now) == Without(ms, id) + [Message(id, Assistant, acc + Concat(pieces), now)]
    decreases |pieces|
  {
    var next := acc + pieces[0];
    var ms' := Updated(ms, id, next, now);
    UpdatedShape(ms, id, next, now);
    assert Replay(ms, id, acc, pieces, now) == Replay(ms', id, next, pieces[1..], now);
    if pieces[1..] == [] {
      assert Concat(pieces) == pieces[0] + Concat(pieces[1..]);
      assert acc + Concat(pieces) == next;
    } else {
      ReplayAccumulates(ms', id, next, pieces[1..], now);
      assert acc + Concat(pieces) == next + Concat(pieces[1..]);
    }
  }

  /**
   * One read of the loop: after the `k`-th piece is added to the text and
   * the assistant message updated, the text holds the first `k + 1` pieces,
   * the list ends with it, and replaying the remaining pieces still gives
   * the whole reply's list.
   */
  lemma ReplayStep(orig: seq<Message>, id: string, pieces: seq<string>, now: int,
                   ms0: seq<Message>, acc0: string, k0: nat, ms: seq<Message>, acc: string, k: nat)
    requires k0 < |pieces| && acc0 == Concat(pieces[..k0])
    requires Replay(ms0, id, acc0, pieces[k0..], now) == Replay(orig, id, "", pieces, now)
    requires acc == acc0 + pieces[k0] && ms == Updated(ms0, id, acc, now) && k == k0 + 1
    ensures acc == Concat(pieces[..k])
    ensures ms != [] && ms[|ms| - 1] == Message(id, Assistant, acc, now)
    ensures Replay(ms, id, acc, pieces[k..], now) == Replay(orig, id, "", pieces, now)
  {
    assert pieces[k0..][0] == pieces[k0] && pieces[k0..][1..] == pieces[k..];
    ConcatPrefix(pieces, k0);
    UpdatedShape(ms0, id, acc, now);
  }

  /** The list `sendMessage` leaves after the user message `base` ends with, for each way the call can go. */
  function AfterReply(base: seq<Message>, reply: Reply, assistantId: string, fallback: Message, now: int): seq<Message> {
    match reply
    case Refused => base + [fallback]
    case Streamed(pieces, readFails) =>
      var read := Replay(base, assistantId, "", pieces, now);
      if readFails then read + [fallback] else read
  }

  /**
   * With a fresh assistant id: a refused call adds only the apology; a reply
   * of no pieces adds nothing; otherwise one assistant message holds the whole
   * reply, followed by the apology when a read failed.
   */
  lemma AfterReplyFresh(base: seq<Message>, reply: Reply, assistantId: string, fallback: Message, now: int)
    requires forall k :: 0 <= k < |base| ==> base[k].id != assistantId
    ensures reply.Refused? ==> AfterReply(base, reply, assistantId, fallback, now) == base + [fallback]
    ensures reply.Streamed? && reply.pieces == [] ==>
      AfterReply(base, reply, assistantId, fallback, now) == if reply.readFails then base + [fallback] else base
    ensures reply.Streamed? && reply.pieces != [] ==>
      var answer := Message(assistantId, Assistant, Concat(reply.pieces), now);
      AfterReply(base, reply, assistantId, fallback, now) ==
        if reply.readFails then base + [answer, fallback] else base + [answer]
  {
    if reply.Streamed? && reply.pieces != [] {
      ReplayAccumulates(base, assistantId, "", reply.pieces, now);
      WithoutAbsent(base, assistantId);
      assert "" + Concat(reply.pieces) == Concat(reply.pieces);
    }
  }

  /** The state of one `useMessages` hook. */
  class ChatSession {
    var messages: seq<Message>
    var sending: bool
    var assistantTyping: bool

    /** The list starts with the assistant's greeting; nothing is in flight. */
    constructor(greetingId: string, now: int)
      ensures messages == [Message(greetingId, Assistant, Greeting, now)]
      ensures !sending && !assistantTyping
    {
      messages := [Message(greetingId, Assistant, Greeting, now)];
      sending := false;
      assistantTyping := false;
    }

    /** `addMessage(role, content)`: append one new message and return it. */
    method AddMessage(role: Role, content: string, id: string, now: int) returns (m: Message)
      modifies this
      ensures m == Message(id, role, content, now)
      ensures messages == old(messages) + [m]
      ensures sending == old(sending) && assistantTyping == old(assistantTyping)
    {
      m := Message(id, role, content, now);
      messages := messages + [m];
    }

    /** `updateAssistantMessage(id, content)`. */
    method UpdateAssistantMessage(id: string, content: string, now: int)
      modifies this
      ensures messages == Updated(old(messages), id, content, now)
      ensures sending == old(sending) && assistantTyping == old(assistantTyping)
    {
      messages := Without(messages, id) + [Message(id, Assistant, content, now)];
    }

    /** `addReceivedMessage(message)`: append a message made elsewhere (a voice transcript). */
    method AddReceivedMessage(m: Message)
      modifies this
      ensures messages == old(messages) + [m]
      ensures sending == old(sending) && assistantTyping == old(assistantTyping)
    {
      messages := messages + [m];
    }

    /**
     * The read loop of `sendMessage`: each decoded piece extends the
     * accumulated text and the assistant message is replaced by it, so after
     * `k` reads the last message holds the first `k` pieces.
     */
    method ReadReply(assistantId: string, pieces: seq<string>, now: int)
      modifies this
      ensures messages == Replay(old(messages), assistantId, "", pieces, now)
      ensures sending == old(sending) && assistantTyping == old(assistantTyping)
    {
      var acc := "";
      var k := 0;
      while k < |pieces|
        invariant 0 <= k <= |pieces|
        invariant acc == Concat(pieces[..k])
        invariant k > 0 ==> messages != [] && messages[|messages| - 1] == Message(assistantId, Assistant, acc, now)
        invariant Replay(messages, assistantId, acc, pieces[k..], now) == Replay(old(messages), assistantId, "", pieces, now)
        invariant sending == old(sending) && assistantTyping == old(assistantTyping)
      {
        ghost var ms0, acc0, k0 := messages, acc, k;
        acc := acc + pieces[k];
        UpdateAssistantMessage(assistantId, acc, now);
        k := k + 1;
        ReplayStep(old(messages), assistantId, pieces, now, ms0, acc0, k0, messages, acc, k);
      }
      assert pieces[k..] == [];
    }

    /**
     * The `try`/`catch` of `sendMessage`: read the reply into the assistant
     * message, and append the apology when the call is refused or a read fails.
     */
    method ReceiveReply(reply: Reply, assistantId: string, fallbackId: string, now: int)
      modifies this
      ensures messages == AfterReply(old(messages), reply, assistantId, Message(fallbackId, Assistant, SendFailure, now), now)
      ensures sending == old(sending) && assistantTyping == old(assistantTyping)
    {
      match reply
      case Refused =>
        var _ := AddMessage(Assistant, SendFailure, fallbackId, now);
      case Streamed(pieces, readFails) =>
        ReadReply(assistantId, pieces, now);
        if readFails {
          var _ := AddMessage(Assistant, SendFailure, fallbackId, now);
        }
    }

    /**
     * `sendMessage(content)`. Whitespace-only content changes nothing and
     * sends nothing. Otherwise the content is appended, untrimmed, as a user
     * message; the request carries the earlier messages and that one; the
     * reply is read piece by piece into one assistant message; a failure adds
     * the apology; and both flags end false.
     */
    method SendMessage(content: string, userId: string, assistantId: string, fallbackId: string, now: int, reply: Reply)
      returns (request: Option<seq<RoleContent>>)
      modifies this
      ensures Trim(content) == [] ==>
        request.None? && messages == old(messages) && sending == old(sending) && assistantTyping == old(assistantTyping)
      ensures Trim(content) != [] ==>
        var userMsg := Message(userId, User, content, now);
        && request == Some(Project(old(messages) + [userMsg]))
        && messages == AfterReply(old(messages) + [userMsg], reply, assistantId, Message(fallbackId, Assistant, SendFailure, now), now)
        && !sending && !assistantTyping
    {
      if Trim(content) == [] {
        return None;
      }
      var prior := messages;
      var userMsg := AddMessage(User, content, userId, now);
      assistantTyping := true;
      sending := true;
      request := Some(Project(prior + [userMsg]));
      ReceiveReply(reply, assistantId, fallbackId, now);
      assistantTyping := false;
      sending := false;
    }
  }
}
