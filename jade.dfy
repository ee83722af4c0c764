/** The slice of the JADE agent framework that both agents use: ACL messages,
    message templates, createReply and the non-blocking receive on an agent's
    private message queue. */
module Jade {

  /** An agent identifier (AID); only compared, never inspected. */
  type AgentId = string

  datatype Option<+T> = None | Some(value: T)

  /** The outcome of a call that may raise java.io.IOException. */
  datatype IO<+T> = Ok(value: T) | Throws

  /** The ACL performatives the agents use; every other one is `Other`. */
  datatype Performative = CFP | Propose | Refuse | AcceptProposal | Inform | Failure | Other

  /** An ACLMessage. The optional fields are the ones JADE leaves null until set. */
  datatype Message = Message(
    performative: Performative,
    content: string,
    conversationId: Option<string>,
    replyWith: Option<string>,
    inReplyTo: Option<string>)

  /** A MessageTemplate. `MatchAll` is the null template, which receive() treats
      as accepting every message. */
  datatype Template =
    | MatchAll
    | MatchPerformative(performative: Performative)
    | MatchConversationId(id: string)
    | MatchInReplyTo(tag: string)
    | And(left: Template, right: Template)

  predicate Matches(t: Template, m: Message)
  {
    match t
    case MatchAll => true
    case MatchPerformative(p) => m.performative == p
    case MatchConversationId(id) => m.conversationId == Some(id)
    case MatchInReplyTo(tag) => m.inReplyTo == Some(tag)
    case And(l, r) => Matches(l, m) && Matches(r, m)
  }

  /** MessageTemplate.and(MatchConversationId(id), MatchInReplyTo(tag)). */
  function ReplyTemplate(id: string, tag: string): (t: Template)
    ensures forall m :: Matches(t, m) <==> m.conversationId == Some(id) && m.inReplyTo == Some(tag)
  {
    And(MatchConversationId(id), MatchInReplyTo(tag))
  }

  /** ACLMessage.createReply(): same conversation, in-reply-to set to the request's
      reply-with; the performative stays the request's until the caller sets it. */
  function CreateReply(request: Message): (reply: Message)
    ensures reply.conversationId == request.conversationId
    ensures reply.inReplyTo == request.replyWith
  {
    Message(request.performative, "", request.conversationId, None, request.replyWith)
  }

  /** The position of the oldest queued message the template accepts. */
  function FirstMatch(t: Template, box: seq<Message>): (r: Option<nat>)
    ensures r.Some? ==> r.value < |box| && Matches(t, box[r.value])
    ensures r.Some? ==> forall j :: 0 <= j < r.value ==> !Matches(t, box[j])
    ensures r.None? ==> forall j :: 0 <= j < |box| ==> !Matches(t, box[j])
    decreases |box|
  {
    if box == [] then None
    else if Matches(t, box[0]) then Some(0)
    else match FirstMatch(t, box[1..])
      case None => None
      case Some(i) => Some(i + 1)
  }

  /** A message taken out of the queue, and the queue that is left. */
  datatype Received = Received(msg: Message, rest: seq<Message>)

  /** Agent.receive(template): removes the oldest message the template accepts,
      or reports that there is none and leaves the queue as it is. */
  function Receive(t: Template, box: seq<Message>): (r: Option<Received>)
    ensures r.None? <==> forall j :: 0 <= j < |box| ==> !Matches(t, box[j])
    ensures r.Some? ==> Matches(t, r.value.msg)
    ensures r.Some? ==> multiset(r.value.rest) + multiset{r.value.msg} == multiset(box)
    ensures r.Some? ==>
      exists i :: 0 <= i < |box| && box[i] == r.value.msg && r.value.rest == box[..i] + box[i + 1..] &&
        forall j :: 0 <= j < i ==> !Matches(t, box[j])
  {
    match FirstMatch(t, box)
    case None => None
    case Some(i) =>
      assert box == box[..i] + [box[i]] + box[i + 1..];
      Some(Received(box[i], box[..i] + box[i + 1..]))
  }

  /** A message arriving behind queued messages the template rejects is the one
      receive() returns. */
  lemma {:induction false} ReceiveArrival(t: Template, box: seq<Message>, m: Message)
    requires forall j :: 0 <= j < |box| ==> !Matches(t, box[j])
    requires Matches(t, m)
    ensures Receive(t, box + [m]) == Some(Received(m, box))
  {
    var q := box + [m];
    FirstMatchArrival(t, box, m);
    assert q[..|box|] + q[|box| + 1..] == box;
  }

  lemma {:induction false} FirstMatchArrival(t: Template, box: seq<Message>, m: Message)
    requires forall j :: 0 <= j < |box| ==> !Matches(t, box[j])
    requires Matches(t, m)
    ensures FirstMatch(t, box + [m]) == Some(|box|)
    decreases |box|
  {
    if box != [] {
      assert (box + [m])[1..] == box[1..] + [m];
      FirstMatchArrival(t, box[1..], m);
    }
  }

  /** A queue whose oldest message the template accepts yields that message. */
  lemma ReceiveHead(t: Template, box: seq<Message>)
    requires box != [] && Matches(t, box[0])
    ensures Receive(t, box) == Some(Received(box[0], box[1..]))
  {
    assert box[..0] + box[1..] == box[1..];
  }
}
