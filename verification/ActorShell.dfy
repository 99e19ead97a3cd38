/** The mailbox side of the wake-up: an actor shell that is owned by a socket manager. */
module ActorShell {
  import Wakeup

  /** A message; `handler` is the response handler it is meant for, if it is a response. */
  datatype Message = Message(id: nat, isRequest: bool, isResponse: bool)

  /** The code that `consume_message` runs for a message: the behavior, and the fallback if the behavior does not
      match; or the handler of the response, and the handler once more with an error if it does not match; or none. */
  datatype Call =
    | Behavior(msg: Message, fallback: bool)
    | Handler(handler: nat, msg: Message, again: bool)
    | Ignored(msg: Message)

  /** What the behavior and the response handlers match. */
  datatype Code = Code(behavior: Message -> bool, handler: (nat, Message) -> bool)

  datatype Status = Ready | Blocked | Closed

  /** The requests among the messages, which are bounced when the shell no longer takes them. */
  function Requests(ms: seq<Message>): seq<Message> {
    if ms == [] then [] else Requests(ms[..|ms| - 1]) + if ms[|ms| - 1].isRequest then [ms[|ms| - 1]] else []
  }

  lemma {:induction false} RequestsConcat(a: seq<Message>, b: seq<Message>)
    ensures Requests(a + b) == Requests(a) + Requests(b)
    decreases |b|
  {
    if b == [] {
      assert a + b == a;
    } else {
      assert (a + b)[..|a + b| - 1] == a + b[..|b| - 1];
      RequestsConcat(a, b[..|b| - 1]);
    }
  }

  class ActorShell {
    const code: Code
    var status: Status
    var inbox: seq<Message>
    /** Whether `owner_` is set. */
    var attached: bool
    /** `multiplexed_responses_`: the handler waiting for each response id. */
    var responses: map<nat, nat>
    var calls: seq<Call>
    var bounced: seq<Message>
    /** Every message the mailbox has taken, those handed to the behavior or a handler, and those dropped on closing. */
    ghost var accepted: seq<Message>
    ghost var consumed: seq<Message>
    ghost var dropped: seq<Message>

    ghost predicate Valid()
      reads this
    {
      && (status != Ready ==> inbox == [])
      && accepted == consumed + dropped + inbox
      && (status != Closed ==> dropped == [])
      && (!attached ==> status == Closed)
      && |calls| == |consumed| && forall k :: 0 <= k < |calls| ==> calls[k].msg == consumed[k]
    }

    /** The mailbox as the wake-up protocol sees it. */
    ghost function Box(): Wakeup.Box
      reads this
    {
      match status
      case Ready => Wakeup.Open(|inbox|)
      case Blocked => Wakeup.Blocked
      case Closed => Wakeup.Closed
    }

    constructor (code: Code)
      ensures this.code == code
      ensures Valid() && Box() == Wakeup.Blocked && attached && accepted == [] && responses == map[]
    {
      this.code := code;
      status, inbox, attached, responses, calls, bounced := Blocked, [], true, map[], [], [];
      accepted, consumed, dropped := [], [], [];
    }

    /** `enqueue`, by any thread: `wake` tells whether the owner gets registered for writing. */
    method Enqueue(msg: Message) returns (taken: bool, wake: bool)
      requires Valid()
      modifies this
      ensures Valid() && Box() == Wakeup.PushBack(old(Box()))
      ensures taken == !old(Box()).Closed? && wake == (old(Box()).Blocked? && attached)
      ensures accepted == old(accepted) + (if taken then [msg] else [])
      ensures bounced == old(bounced) + (if !taken && msg.isRequest then [msg] else [])
      ensures consumed == old(consumed) && responses == old(responses) && attached == old(attached)
    {
      match status
      case Closed =>
        if msg.isRequest {
          bounced := bounced + [msg];
        }
        return false, false;
      case Blocked =>
        status, inbox, accepted := Ready, [msg], accepted + [msg];
        return true, attached;
      case Ready =>
        inbox, accepted := inbox + [msg], accepted + [msg];
        return true, false;
    }

    /** `try_block_mailbox`: succeeds exactly if no message is waiting and the mailbox is not closed. */
    method TryBlockMailbox() returns (blocked: bool)
      requires Valid()
      modifies this`status
      ensures Valid()
      ensures blocked == (old(Box()).Blocked? || old(Box()) == Wakeup.Open(0))
      ensures Box() == if blocked then Wakeup.Blocked else old(Box())
    {
      if status.Blocked? {
        return true;
      }
      if status.Ready? && inbox == [] {
        status := Blocked;
        return true;
      }
      return false;
    }

    method NextMessage() returns (msg: seq<Message>)
      requires Valid()
      modifies this`inbox
      ensures msg == (if old(inbox) == [] then [] else [old(inbox)[0]])
      ensures msg + inbox == old(inbox)
    {
      if !status.Blocked? && inbox != [] {
        msg := [inbox[0]];
        inbox := inbox[1..];
      } else {
        msg := [];
      }
    }

    /** `consume_message`: the oldest message goes to the behavior, and to the fallback if and only if the behavior does
        not match; a response goes to the handler that waits for its id, which is forgotten before it runs, and once
        more if and only if it does not match; responses nobody waits for are ignored. */
    method ConsumeMessage() returns (ok: bool)
      requires Valid()
      modifies this`inbox, this`responses, this`calls, this`consumed
      ensures Valid() && ok == (old(inbox) != [])
      ensures !ok ==> calls == old(calls) && responses == old(responses)
      ensures !ok ==> consumed == old(consumed) && Box() == old(Box())
      ensures ok ==>
                var m := old(inbox)[0];
                && consumed == old(consumed) + [m] && Box() == Wakeup.Open(old(Box()).count - 1)
                && |calls| == |old(calls)| + 1 && old(calls) <= calls
                && (!m.isResponse ==>
                      calls[|calls| - 1] == Behavior(m, !code.behavior(m)) && responses == old(responses))
                && (m.isResponse && m.id in old(responses) ==>
                      var handler := old(responses)[m.id];
                      && calls[|calls| - 1] == Handler(handler, m, !code.handler(handler, m))
                      && responses == old(responses) - {m.id})
                && (m.isResponse && m.id !in old(responses) ==>
                      calls[|calls| - 1] == Ignored(m) && responses == old(responses))
    {
      var next := NextMessage();
      if next == [] {
        return false;
      }
      var msg := next[0];
      ghost var before := old(inbox);
      consumed := consumed + [msg];
      assert before == [msg] + inbox;
      if !msg.isResponse {
        var matched := code.behavior(msg);
        calls := calls + [Behavior(msg, !matched)];
      } else if msg.id in responses {
        var handler := responses[msg.id];
        responses := responses - {msg.id};
        var matched := code.handler(handler, msg);
        calls := calls + [Handler(handler, msg, !matched)];
      } else {
        calls := calls + [Ignored(msg)];
      }
      return true;
    }

    /** `emplace` keeps a handler that is already waiting for the id. */
    method AddResponseHandler(id: nat, handler: nat)
      requires Valid()
      modifies this`responses
      ensures Valid() && responses == if id in old(responses) then old(responses) else old(responses)[id := handler]
    {
      if id !in responses {
        responses := responses[id := handler];
      }
    }

    /** `cleanup`: closes the mailbox, drops what is waiting in rounds of up to 1000 messages, bouncing the requests,
        and detaches from the owner. */
    method Cleanup()
      requires Valid()
      modifies this`status, this`inbox, this`bounced, this`dropped, this`attached
      ensures Valid() && Box() == Wakeup.Closed && !attached && inbox == []
      ensures bounced == old(bounced) + Requests(old(inbox))
    {
      hide Requests;
      if status.Closed? {
        NoRequests();
      } else {
        status := Closed;
        SameMessages(consumed, inbox);
        DropAll();
      }
      attached := false;
    }

    lemma NoRequests()
      ensures bounced == bounced + Requests([])
    {}

    lemma SameMessages(a: seq<Message>, b: seq<Message>)
      ensures a + [] + b == a + b + []
    {}

    method DropAll()
      requires dropped == []
      modifies this`inbox, this`bounced, this`dropped
      ensures inbox == [] && dropped == old(inbox) && bounced == old(bounced) + Requests(old(inbox))
    {
      hide Requests;
      NoRequests();
      assert dropped + inbox == inbox;
      var n := BounceMore(old(bounced));
      while n > 0
        invariant n <= 1000 && (n == 0 ==> inbox == [])
        invariant dropped + inbox == old(inbox) && bounced == old(bounced) + Requests(dropped)
        decreases |inbox| + n
      {
        n := BounceMore(old(bounced));
      }
      assert dropped == old(inbox);
    }

    method BounceMore(ghost base: seq<Message>) returns (n: nat)
      requires bounced == base + Requests(dropped)
      modifies this`inbox, this`bounced, this`dropped
      ensures n <= 1000 && |inbox| + n == |old(inbox)| && (n == 0 ==> inbox == [])
      ensures dropped + inbox == old(dropped) + old(inbox)
      ensures bounced == base + Requests(dropped)
    {
      n := BounceRound();
      ghost var chunk, rest := old(inbox)[..n], old(inbox)[n..];
      assert old(inbox) == chunk + rest;
      assert (old(dropped) + chunk) + rest == old(dropped) + (chunk + rest);
      RequestsConcat(old(dropped), chunk);
      assert (base + Requests(old(dropped))) + Requests(chunk) == base + (Requests(old(dropped)) + Requests(chunk));
    }

    /** `new_round(1000, bounce)`: how many messages have been dropped. */
    method BounceRound() returns (n: nat)
      modifies this`inbox, this`bounced, this`dropped
      ensures n == if |old(inbox)| < 1000 then |old(inbox)| else 1000
      ensures inbox == old(inbox)[n..] && dropped == old(dropped) + old(inbox)[..n]
      ensures bounced == old(bounced) + Requests(old(inbox)[..n])
    {
      n := if |inbox| < 1000 then |inbox| else 1000;
      for k := 0 to n
        invariant inbox == old(inbox) && dropped == old(dropped)
        invariant bounced == old(bounced) + Requests(inbox[..k])
      {
        assert inbox[..k + 1][..k] == inbox[..k];
        if inbox[k].isRequest {
          bounced := bounced + [inbox[k]];
        }
      }
      dropped := dropped + inbox[..n];
      inbox := inbox[n..];
    }
  }
}
