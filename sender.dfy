/** SenderAgent: normalises its start-up arguments into an input (local) path and
    an output (HDFS) path, looks up the one HDFS writer agent in the directory, and
    runs RequestPerformer, a five-step behaviour that negotiates the copy. */
module Sender {
  import opened Jade
  import opened JavaText
  import Writer

  /** The prefixes of the reply-with tags of the CFP and of the ACCEPT_PROPOSAL;
      the rest of each tag is the clock reading, an opaque token here. */
  const CFP_PREFIX := "cfp"
  const FILE_PREFIX := "file"

  // ---------------------------------------------------------------------------
  // Start-up arguments

  /** The `args` array setup builds: one argument is split on `:` if it holds one,
      else on `;` if it holds one, else gives none; two arguments are taken as
      they are; any other count gives none. */
  function NormaliseArgs(arguments: Option<seq<string>>): (args: Option<seq<string>>)
    ensures args.Some? ==> arguments.Some? && 1 <= |arguments.value| <= 2
    ensures arguments.Some? && |arguments.value| == 2 ==> args == arguments
  {
    match arguments
    case None => None
    case Some(a) =>
      if |a| == 1 then
        if ':' in a[0] then Some(Split(a[0], ':'))
        else if ';' in a[0] then Some(Split(a[0], ';'))
        else None
      else if |a| == 2 then
        assert a == [a[0], a[1]];
        Some([a[0], a[1]])
      else None
  }

  /** Setup goes on only with exactly two normalised arguments. */
  predicate Accepted(args: Option<seq<string>>)
  {
    args.Some? && |args.value| == 2
  }

  function Separators(sep: char, n: nat): string
  {
    seq(n, _ => sep)
  }

  /** "in:out" is accepted as [in, out] when neither part holds a colon and out is
      not empty, whether or not a `;` occurs: the colon takes precedence. */
  lemma ColonArgument(x: string, y: string)
    requires ':' !in x && ':' !in y && y != []
    ensures NormaliseArgs(Some([x + [':'] + y])) == Some([x, y])
  {
    assert (x + [':'] + y)[|x|] == ':';
    SplitPair(x, y, ':');
  }

  /** Without a colon, "in;out" is accepted as [in, out]. */
  lemma SemicolonArgument(x: string, y: string)
    requires ':' !in x && ':' !in y && ';' !in x && ';' !in y && y != []
    ensures NormaliseArgs(Some([x + [';'] + y])) == Some([x, y])
  {
    var s := x + [';'] + y;
    assert s[|x|] == ';';
    assert forall i :: 0 <= i < |s| ==> s[i] != ':' by {
      forall i | 0 <= i < |s| ensures s[i] != ':' {
        if i < |x| { assert s[i] == x[i]; } else if i > |x| { assert s[i] == y[i - |x| - 1]; }
      }
    }
    SplitPair(x, y, ';');
  }

  /** "in:" is rejected: Java drops the empty trailing field, so one field remains. */
  lemma TrailingColonRejected(x: string)
    requires ':' !in x
    ensures !Accepted(NormaliseArgs(Some([x + [':']])))
  {
    assert (x + [':'])[|x|] == ':';
    SplitTrailingSeparator(x, ':');
  }

  /** One argument with neither separator leaves `args` null. */
  lemma NoSeparatorRejected(x: string)
    requires ':' !in x && ';' !in x
    ensures NormaliseArgs(Some([x])) == None
  {
  }

  /** Conversely, an accepted single argument is the two paths joined by the
      separator that was used, followed by nothing but further separators. */
  lemma AcceptedSingleArgument(x: string)
    requires Accepted(NormaliseArgs(Some([x])))
    ensures var sep := if ':' in x then ':' else ';';
      var args := NormaliseArgs(Some([x])).value;
      sep !in args[0] && sep !in args[1] && args[1] != [] &&
      exists n: nat :: x == args[0] + [sep] + args[1] + Separators(sep, n)
  {
    var sep := if ':' in x then ':' else ';';
    var fields := Fields(x, sep);
    var args := DropTrailingEmpty(fields);
    assert args == NormaliseArgs(Some([x])).value;
    JoinTrailingEmpty(fields, 2, sep);
    assert args == fields[..2];
    assert Join(fields[..2], sep) == args[0] + [sep] + args[1] by {
      assert fields[..2][1..] == [args[1]];
    }
    assert x == args[0] + [sep] + args[1] + Separators(sep, |fields| - 2);
  }

  lemma {:induction false} JoinTrailingEmpty(fields: seq<string>, m: nat, sep: char)
    requires 1 <= m <= |fields|
    requires forall i :: m <= i < |fields| ==> fields[i] == []
    ensures Join(fields, sep) == Join(fields[..m], sep) + Separators(sep, |fields| - m)
    decreases |fields|
  {
    if m == |fields| {
      assert fields[..m] == fields;
      assert Separators(sep, 0) == [];
    } else if m == 1 {
      JoinEmpty(fields[1..], sep);
      assert fields[..1] == [fields[0]];
      assert [sep] + Separators(sep, |fields| - 2) == Separators(sep, |fields| - 1);
    } else {
      JoinTrailingEmpty(fields[1..], m - 1, sep);
      assert fields[..m][1..] == fields[1..][..m - 1];
    }
  }

  lemma {:induction false} JoinEmpty(fields: seq<string>, sep: char)
    requires |fields| >= 1
    requires forall i :: 0 <= i < |fields| ==> fields[i] == []
    ensures Join(fields, sep) == Separators(sep, |fields| - 1)
    decreases |fields|
  {
    if |fields| > 1 {
      JoinEmpty(fields[1..], sep);
      assert [sep] + Separators(sep, |fields| - 2) == Separators(sep, |fields| - 1);
    }
  }

  // ---------------------------------------------------------------------------
  // Discovery

  /** What DFService.search answered: the agents offering the service, or a FIPAException. */
  datatype Search = Found(agents: seq<AgentId>) | SearchFailed

  /** The HDFS agent the OneShotBehaviour settles on: one only when the search
      found exactly one. */
  function ChosenAgent(search: Search): Option<AgentId>
  {
    if search.Found? && |search.agents| == 1 then Some(search.agents[0]) else None
  }

  /** A search finding no agent, or more than one, makes the sender request deletion. */
  predicate SearchRejected(search: Search)
  {
    search.Found? && |search.agents| != 1
  }

  // ---------------------------------------------------------------------------
  // RequestPerformer

  /** The fields RequestPerformer reads and writes: the agent's paths, its HDFS
      agent, its queue, the messages it sent and its deletion request, and the
      behaviour's own `step` and `mt`. */
  datatype SenderState = SenderState(
    inputPath: string,
    outputPath: string,
    hdfsAgent: Option<AgentId>,
    mailbox: seq<Message>,
    sent: seq<Message>,
    deleteRequested: bool,
    step: int,
    mt: Template)

  function CfpFor(path: string, token: string): Message
  {
    Message(CFP, path, Some(Writer.SERVICE_HDFS), Some(CFP_PREFIX + token), None)
  }

  function AcceptFor(path: string, token: string): Message
  {
    Message(AcceptProposal, path, Some(Writer.SERVICE_HDFS), Some(FILE_PREFIX + token), None)
  }

  /** One RequestPerformer.action(); `token` is the clock reading that makes the
      reply-with tag of the message sent in steps 0 and 2. */
  function RequestStep(s: SenderState, token: string): (r: SenderState)
    ensures r.inputPath == s.inputPath && r.outputPath == s.outputPath && r.hdfsAgent == s.hdfsAgent
    ensures s.step <= r.step
    ensures |s.sent| <= |r.sent| <= |s.sent| + 1 && r.sent[..|s.sent|] == s.sent
    ensures s.deleteRequested ==> r.deleteRequested
  {
    if s.step == 0 then
      var cfp := CfpFor(s.outputPath, token);
      s.(sent := s.sent + [cfp], mt := ReplyTemplate(Writer.SERVICE_HDFS, cfp.replyWith.value), step := 1)
    else if s.step == 1 then
      match Receive(s.mt, s.mailbox)
      case None => s
      case Some(Received(reply, rest)) =>
        if reply.performative == Propose then s.(mailbox := rest, step := 2)
        else if reply.performative == Refuse then s.(mailbox := rest, deleteRequested := true)
        else s.(mailbox := rest)
    else if s.step == 2 then
      var proceed := AcceptFor(s.inputPath, token);
      s.(sent := s.sent + [proceed], mt := ReplyTemplate(Writer.SERVICE_HDFS, proceed.replyWith.value), step := 3)
    else if s.step == 3 then
      match Receive(s.mt, s.mailbox)
      case None => s
      case Some(Received(reply, rest)) =>
        s.(mailbox := rest, deleteRequested := s.deleteRequested || reply.performative == Inform, step := 4)
    else s
  }

  /** RequestPerformer.done(). */
  predicate Done(s: SenderState)
  {
    s.step == 4 || (s.step == 2 && s.hdfsAgent.None?)
  }

  predicate HasPrefix(s: string, prefix: string)
  {
    |prefix| <= |s| && s[..|prefix|] == prefix
  }

  /** `mt` accepts replies in the HDFS conversation to a tag that starts with `prefix`. */
  predicate AwaitsReplyTo(mt: Template, prefix: string)
  {
    mt.And? && mt.left == MatchConversationId(Writer.SERVICE_HDFS) &&
    mt.right.MatchInReplyTo? && HasPrefix(mt.right.tag, prefix)
  }

  /** The behaviour's invariant: `step` is one of the five values, and `mt` is the
      null template before the CFP, a CFP-reply template in steps 1 and 2, and an
      ACCEPT_PROPOSAL-reply template in steps 3 and 4. */
  predicate Inv(s: SenderState)
  {
    0 <= s.step <= 4 &&
    (s.step == 0 ==> s.mt == MatchAll) &&
    (1 <= s.step <= 2 ==> AwaitsReplyTo(s.mt, CFP_PREFIX)) &&
    (3 <= s.step ==> AwaitsReplyTo(s.mt, FILE_PREFIX))
  }

  /** How many messages the behaviour has sent once it is at `step`. */
  function SentBy(step: int): nat
  {
    if step <= 0 then 0 else if step <= 2 then 1 else 2
  }

  /** `m` is the behaviour's k-th message: the CFP carrying the output path tagged
      "cfp…" (k = 0), or the ACCEPT_PROPOSAL carrying the input path tagged "file…"
      (k = 1), both in the HDFS conversation. */
  predicate NthRequest(s: SenderState, k: int, m: Message)
  {
    (k == 0 || k == 1) && m.conversationId == Some(Writer.SERVICE_HDFS) && m.replyWith.Some? &&
    (k == 0 ==> m.performative == CFP && m.content == s.outputPath && HasPrefix(m.replyWith.value, CFP_PREFIX)) &&
    (k == 1 ==> m.performative == AcceptProposal && m.content == s.inputPath && HasPrefix(m.replyWith.value, FILE_PREFIX))
  }

  /** The messages sent between `s` and `r`, numbered from the first one `s` had not sent yet. */
  predicate SentRequests(s: SenderState, r: SenderState)
    requires |s.sent| <= |r.sent|
  {
    forall i :: |s.sent| <= i < |r.sent| ==> NthRequest(s, SentBy(s.step) + i - |s.sent|, r.sent[i])
  }

  /** Step 0 sends one CFP carrying the output path in the HDFS conversation and
      moves to step 1, waiting for replies to that CFP's tag only. */
  lemma CfpStep(s: SenderState, token: string)
    requires s.step == 0
    ensures var r := RequestStep(s, token);
      r.step == 1 && r.sent == s.sent + [CfpFor(s.outputPath, token)] &&
      r.mailbox == s.mailbox && r.deleteRequested == s.deleteRequested &&
      forall m :: Matches(r.mt, m) <==>
        m.conversationId == Some(Writer.SERVICE_HDFS) && m.inReplyTo == Some(CFP_PREFIX + token)
  {
  }

  /** Step 1: with no matching reply nothing changes; otherwise the oldest matching
      reply is consumed, PROPOSE moves to step 2, REFUSE requests deletion and stays
      at step 1, and anything else is dropped with the step unchanged. */
  lemma AwaitProposalStep(s: SenderState, token: string)
    requires s.step == 1
    ensures var r := RequestStep(s, token);
      var i := FirstMatch(s.mt, s.mailbox);
      (i.None? ==> r == s) &&
      (i.Some? ==>
        var reply := s.mailbox[i.value];
        r.mailbox == s.mailbox[..i.value] + s.mailbox[i.value + 1..] &&
        r.step == (if reply.performative == Propose then 2 else 1) &&
        r.deleteRequested == (s.deleteRequested || reply.performative == Refuse) &&
        r.sent == s.sent && r.mt == s.mt)
  {
  }

  /** Step 2 sends one ACCEPT_PROPOSAL carrying the input path, tagged "file…", and
      moves to step 3, waiting for replies to that tag. */
  lemma CommitStep(s: SenderState, token: string)
    requires s.step == 2
    ensures var r := RequestStep(s, token);
      r.step == 3 && r.sent == s.sent + [AcceptFor(s.inputPath, token)] &&
      r.mailbox == s.mailbox && r.deleteRequested == s.deleteRequested &&
      forall m :: Matches(r.mt, m) <==>
        m.conversationId == Some(Writer.SERVICE_HDFS) && m.inReplyTo == Some(FILE_PREFIX + token)
  {
  }

  /** Step 3: with no matching reply nothing changes; otherwise the oldest matching
      reply is consumed and the step becomes 4; only INFORM requests deletion. */
  lemma AwaitOutcomeStep(s: SenderState, token: string)
    requires s.step == 3
    ensures var r := RequestStep(s, token);
      var i := FirstMatch(s.mt, s.mailbox);
      (i.None? ==> r == s) &&
      (i.Some? ==>
        var reply := s.mailbox[i.value];
        r.mailbox == s.mailbox[..i.value] + s.mailbox[i.value + 1..] &&
        r.step == 4 && Done(r) &&
        r.deleteRequested == (s.deleteRequested || reply.performative == Inform) &&
        r.sent == s.sent)
  {
  }

  /** Every step keeps the invariant, never lowers `step`, raises it by at most one,
      and sends exactly the messages that the steps it passes account for: the CFP
      leaving step 0, the ACCEPT_PROPOSAL leaving step 2. */
  lemma StepKeepsInv(s: SenderState, token: string)
    requires Inv(s)
    ensures var r := RequestStep(s, token);
      Inv(r) && s.step <= r.step <= s.step + 1 && |r.sent| == |s.sent| + SentBy(r.step) - SentBy(s.step) &&
      SentRequests(s, r)
  {
    var r := RequestStep(s, token);
    if s.step == 0 {
      assert r.mt.right.tag == CFP_PREFIX + token;
      assert (CFP_PREFIX + token)[..|CFP_PREFIX|] == CFP_PREFIX;
    } else if s.step == 2 {
      assert r.mt.right.tag == FILE_PREFIX + token;
      assert (FILE_PREFIX + token)[..|FILE_PREFIX|] == FILE_PREFIX;
    }
    StepSendsRequests(s, token);
  }

  lemma StepSendsRequests(s: SenderState, token: string)
    requires 0 <= s.step <= 4
    ensures var r := RequestStep(s, token);
      |r.sent| == |s.sent| + SentBy(r.step) - SentBy(s.step) && SentRequests(s, r)
  {
    var r := RequestStep(s, token);
    if s.step == 0 {
      assert r.sent[|s.sent|] == CfpFor(s.outputPath, token);
      assert (CFP_PREFIX + token)[..|CFP_PREFIX|] == CFP_PREFIX;
    } else if s.step == 2 {
      assert r.sent[|s.sent|] == AcceptFor(s.inputPath, token);
      assert (FILE_PREFIX + token)[..|FILE_PREFIX|] == FILE_PREFIX;
    } else {
      assert r.sent == s.sent;
    }
  }

  /** done() holds exactly at step 4 once the HDFS agent is known, and an action that
      finishes the behaviour is the one consuming the reply to the ACCEPT_PROPOSAL;
      with no agent recorded it also finishes on consuming a PROPOSE in step 1,
      reaching step 2 before the ACCEPT_PROPOSAL is sent. */
  lemma FinishesOnOutcome(s: SenderState, token: string)
    requires Inv(s) && !Done(s) && Done(RequestStep(s, token))
    ensures s.hdfsAgent.Some? ==> s.step == 3 && FirstMatch(s.mt, s.mailbox).Some?
    ensures s.hdfsAgent.None? ==> (s.step == 1 || s.step == 3) && FirstMatch(s.mt, s.mailbox).Some?
    ensures s.step == 1 ==> s.mailbox[FirstMatch(s.mt, s.mailbox).value].performative == Propose
    ensures RequestStep(s, token).sent == s.sent
  {
  }

  /** Correlation: once the ACCEPT_PROPOSAL is out, a reply to the CFP can never
      satisfy the template, whatever the tokens were, because the tag prefixes differ. */
  lemma StaleCfpReplyIgnored(s: SenderState, m: Message)
    requires Inv(s) && s.step >= 3
    requires m.inReplyTo.Some? && HasPrefix(m.inReplyTo.value, CFP_PREFIX)
    ensures !Matches(s.mt, m)
  {
    var tag := s.mt.right.tag;
    assert tag[0] == FILE_PREFIX[0];
    assert m.inReplyTo.value[0] == CFP_PREFIX[0];
  }

  /** What can happen to the sender between two checks of done(): the behaviour
      runs once, or a message arrives in the queue. */
  datatype Event = Act(token: string) | Arrive(m: Message)

  /** The sender after a sequence of events; JADE removes the behaviour once done()
      holds, so an action after that changes nothing. */
  function Replay(s: SenderState, events: seq<Event>): SenderState
    decreases |events|
  {
    if events == [] then s
    else
      var next := match events[0]
        case Act(token) => if Done(s) then s else RequestStep(s, token)
        case Arrive(m) => s.(mailbox := s.mailbox + [m]);
      Replay(next, events[1..])
  }

  /** Over any run `step` only grows, the invariant holds throughout, the messages
      sent are at most one CFP with the output path followed by at most one
      ACCEPT_PROPOSAL with the input path, earlier messages are untouched, and a
      finished behaviour stays finished with nothing more sent. */
  lemma {:induction false} ReplayKeepsInv(s: SenderState, events: seq<Event>)
    requires Inv(s)
    ensures var r := Replay(s, events);
      Inv(r) && s.step <= r.step &&
      |r.sent| == |s.sent| + SentBy(r.step) - SentBy(s.step) && r.sent[..|s.sent|] == s.sent &&
      SentRequests(s, r) &&
      (Done(s) ==> r.step == s.step && r.sent == s.sent)
    decreases |events|
  {
    if events != [] {
      var next := match events[0]
        case Act(token) => if Done(s) then s else RequestStep(s, token)
        case Arrive(m) => s.(mailbox := s.mailbox + [m]);
      if events[0].Act? && !Done(s) {
        StepKeepsInv(s, events[0].token);
      }
      ReplayKeepsInv(next, events[1..]);
      assert Replay(s, events) == Replay(next, events[1..]);
      var r := Replay(next, events[1..]);
      assert r.sent[..|next.sent|] == next.sent;
      assert next.sent[..|s.sent|] == s.sent;
      assert r.sent[..|s.sent|] == s.sent by {
        assert r.sent[..|s.sent|] == r.sent[..|next.sent|][..|s.sent|];
      }
      SentRequestsCompose(s, next, r);
    }
  }

  /** The messages of two consecutive stretches of a run, numbered on from each other. */
  lemma SentRequestsCompose(s: SenderState, next: SenderState, r: SenderState)
    requires next.inputPath == s.inputPath && next.outputPath == s.outputPath
    requires |s.sent| <= |next.sent| <= |r.sent| && r.sent[..|next.sent|] == next.sent
    requires |next.sent| == |s.sent| + SentBy(next.step) - SentBy(s.step)
    requires SentRequests(s, next) && SentRequests(next, r)
    ensures SentRequests(s, r)
  {
    forall i | |s.sent| <= i < |r.sent|
      ensures NthRequest(s, SentBy(s.step) + i - |s.sent|, r.sent[i])
    {
      if i < |next.sent| {
        assert r.sent[i] == r.sent[..|next.sent|][i];
      } else {
        assert NthRequest(next, SentBy(next.step) + i - |next.sent|, r.sent[i]);
      }
    }
  }

  // ---------------------------------------------------------------------------
  // The agent objects

  datatype Behaviour = DiscoveryBehaviour | RequestBehaviour

  class SenderAgent {
    var inputPath: string
    var outputPath: string
    var hdfsAgent: Option<AgentId>
    var mailbox: seq<Message>
    var sent: seq<Message>
    var deleteRequested: bool
    var behaviours: seq<Behaviour>

    /** A freshly created agent; the null paths are held as empty strings. */
    constructor ()
      ensures inputPath == [] && outputPath == [] && hdfsAgent == None
      ensures mailbox == [] && sent == [] && !deleteRequested && behaviours == []
    {
      inputPath, outputPath, hdfsAgent := [], [], None;
      mailbox, sent, deleteRequested, behaviours := [], [], false, [];
    }

    /** setup(): normalise the arguments; with exactly two, record the paths,
        request deletion if the input is missing locally (`inputExists`) but carry
        on, and add the discovery behaviour; otherwise request deletion only. */
    method Setup(arguments: Option<seq<string>>, inputExists: bool)
      modifies this
      ensures var args := NormaliseArgs(arguments);
        if Accepted(args) then
          inputPath == args.value[0] && outputPath == args.value[1] &&
          deleteRequested == (old(deleteRequested) || !inputExists) &&
          behaviours == old(behaviours) + [DiscoveryBehaviour]
        else
          inputPath == old(inputPath) && outputPath == old(outputPath) &&
          deleteRequested && behaviours == old(behaviours)
      ensures hdfsAgent == old(hdfsAgent) && mailbox == old(mailbox) && sent == old(sent)
    {
      var args := NormaliseArgs(arguments);
      if args.Some? && |args.value| == 2 {
        inputPath := args.value[0];
        if !inputExists {
          deleteRequested := true;
        }
        outputPath := args.value[1];
        behaviours := behaviours + [DiscoveryBehaviour];
      } else {
        deleteRequested := true;
      }
    }

    /** The discovery OneShotBehaviour: with exactly one agent found, record it and
        add a fresh RequestPerformer; with none or several, request deletion; on a
        FIPAException do nothing. No message is sent. */
    method Discover(search: Search) returns (performer: RequestPerformer?)
      modifies this
      ensures performer != null <==> ChosenAgent(search).Some?
      ensures performer != null ==>
        fresh(performer) && performer.agent == this && performer.step == 0 && performer.Valid()
      ensures hdfsAgent == if ChosenAgent(search).Some? then ChosenAgent(search) else old(hdfsAgent)
      ensures behaviours == old(behaviours) + if performer != null then [RequestBehaviour] else []
      ensures deleteRequested == (old(deleteRequested) || SearchRejected(search))
      ensures inputPath == old(inputPath) && outputPath == old(outputPath)
      ensures mailbox == old(mailbox) && sent == old(sent)
    {
      performer := null;
      if search.SearchFailed? {
        return;
      }
      var result := search.agents;
      if |result| == 0 {
        deleteRequested := true;
      }
      if |result| > 1 {
        deleteRequested := true;
      } else if |result| == 1 {
        hdfsAgent := Some(result[0]);
        performer := new RequestPerformer(this);
        behaviours := behaviours + [RequestBehaviour];
      }
    }

    /** The message fabric placing a message in this agent's queue. */
    method Deliver(m: Message)
      modifies this
      ensures mailbox == old(mailbox) + [m]
      ensures inputPath == old(inputPath) && outputPath == old(outputPath) && hdfsAgent == old(hdfsAgent)
      ensures sent == old(sent) && deleteRequested == old(deleteRequested) && behaviours == old(behaviours)
    {
      mailbox := mailbox + [m];
    }
  }

  class RequestPerformer {
    const agent: SenderAgent
    var step: int
    var mt: Template

    constructor (agent: SenderAgent)
      ensures this.agent == agent && step == 0 && mt == MatchAll
    {
      this.agent := agent;
      step := 0;
      mt := MatchAll;
    }

    function State(): SenderState
      reads this, agent
    {
      SenderState(agent.inputPath, agent.outputPath, agent.hdfsAgent,
                  agent.mailbox, agent.sent, agent.deleteRequested, step, mt)
    }

    ghost predicate Valid()
      reads this, agent
    {
      Inv(State())
    }

    /** action(): the switch on `step`. */
    method Action(token: string)
      requires Valid()
      modifies this, agent
      ensures Valid()
      ensures State() == RequestStep(old(State()), token)
      ensures agent.behaviours == old(agent.behaviours)
    {
      StepKeepsInv(State(), token);
      if step == 0 {
        var cfp := Message(CFP, [], None, None, None);
        cfp := cfp.(content := agent.outputPath);
        cfp := cfp.(conversationId := Some(Writer.SERVICE_HDFS));
        cfp := cfp.(replyWith := Some(CFP_PREFIX + token));
        agent.sent := agent.sent + [cfp];
        mt := ReplyTemplate(Writer.SERVICE_HDFS, cfp.replyWith.value);
        step := 1;
      } else if step == 1 {
        var received := Receive(mt, agent.mailbox);
        if received.Some? {
          agent.mailbox := received.value.rest;
          var reply := received.value.msg;
          if reply.performative == Propose {
            step := 2;
          } else if reply.performative == Refuse {
            agent.deleteRequested := true;
          }
        }
      } else if step == 2 {
        var proceed := Message(AcceptProposal, [], None, None, None);
        proceed := proceed.(content := agent.inputPath);
        proceed := proceed.(conversationId := Some(Writer.SERVICE_HDFS));
        proceed := proceed.(replyWith := Some(FILE_PREFIX + token));
        agent.sent := agent.sent + [proceed];
        mt := ReplyTemplate(Writer.SERVICE_HDFS, proceed.replyWith.value);
        step := 3;
      } else if step == 3 {
        var received := Receive(mt, agent.mailbox);
        if received.Some? {
          agent.mailbox := received.value.rest;
          var reply := received.value.msg;
          if reply.performative == Inform {
            agent.deleteRequested := true;
          }
          step := 4;
        }
      }
    }
  }
}
