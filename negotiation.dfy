/** The two agents together. Each turn is one action() of one behaviour; what it
    sends is placed at once at the end of the other agent's queue. The lemmas are
    the end-to-end runs of the protocol: a copy that completes, a target that
    already exists, storage faults that leave the sender waiting, and two
    negotiations interleaved at the writer. */
module Negotiation {
  import opened Jade
  import opened Writer
  import opened Sender

  datatype World = World(sender: SenderState, writer: WriterState)

  /** RequestPerformer runs once, unless done() already removed it. */
  function SenderTurn(w: World, token: string): (r: World)
    ensures |w.sender.sent| <= |r.sender.sent| && r.sender.sent[..|w.sender.sent|] == w.sender.sent
  {
    var s := if Done(w.sender) then w.sender else RequestStep(w.sender, token);
    World(s, w.writer.(mailbox := w.writer.mailbox + s.sent[|w.sender.sent|..]))
  }

  /** FileRequestsServer runs once; `pathAccepted` is whether `new Path` accepts the
      CFP's content, `probe` is what fs.exists answers. */
  function ServerTurn(w: World, pathAccepted: bool, probe: IO<bool>): World
  {
    var h := ServeCfp(w.writer, pathAccepted, probe);
    World(w.sender.(mailbox := w.sender.mailbox + h.state.sent[|w.writer.sent|..]), h.state)
  }

  /** HDFSWriter runs once with the given storage answers. */
  function WriterTurn(w: World, answers: CopyAnswers): World
  {
    var h := ServeAccept(w.writer, answers);
    World(w.sender.(mailbox := w.sender.mailbox + h.state.sent[|w.writer.sent|..]), h.state)
  }

  /** Steps 0 and 2: the sender's message lands in the writer's queue. */
  lemma SenderSendTurn(w: World, token: string)
    requires (w.sender.step == 0 || w.sender.step == 2) && w.sender.hdfsAgent.Some?
    ensures var m := if w.sender.step == 0 then CfpFor(w.sender.outputPath, token)
                     else AcceptFor(w.sender.inputPath, token);
      SenderTurn(w, token) == World(
        w.sender.(sent := w.sender.sent + [m], step := w.sender.step + 1,
                  mt := ReplyTemplate(SERVICE_HDFS, m.replyWith.value)),
        w.writer.(mailbox := w.writer.mailbox + [m]))
  {
    var m := if w.sender.step == 0 then CfpFor(w.sender.outputPath, token)
             else AcceptFor(w.sender.inputPath, token);
    var s := RequestStep(w.sender, token);
    assert s.sent == w.sender.sent + [m];
    assert s.sent[|w.sender.sent|..] == [m];
  }

  /** Steps 1 and 3: a single queued reply that the template accepts is consumed. */
  lemma SenderReplyTurn(w: World, token: string, m: Message)
    requires (w.sender.step == 1 || w.sender.step == 3) && w.sender.mailbox == [m] && Matches(w.sender.mt, m)
    ensures SenderTurn(w, token) == World(
      if w.sender.step == 1 then
        w.sender.(mailbox := [], step := if m.performative == Propose then 2 else 1,
                  deleteRequested := w.sender.deleteRequested || m.performative == Refuse)
      else
        w.sender.(mailbox := [], step := 4, deleteRequested := w.sender.deleteRequested || m.performative == Inform),
      w.writer)
  {
    ReceiveHead(w.sender.mt, [m]);
    var s := RequestStep(w.sender, token);
    assert s.sent == w.sender.sent;
    assert s.sent[|w.sender.sent|..] == [];
    assert w.writer.mailbox + [] == w.writer.mailbox;
  }

  /** Steps 1 and 3 with nothing the template accepts: the turn changes nothing. */
  lemma SenderWaitTurn(w: World, token: string)
    requires w.sender.step == 1 || w.sender.step == 3
    requires forall j :: 0 <= j < |w.sender.mailbox| ==> !Matches(w.sender.mt, w.sender.mailbox[j])
    ensures SenderTurn(w, token) == w
  {
    var s := RequestStep(w.sender, token);
    assert s == w.sender;
    assert s.sent[|w.sender.sent|..] == [];
    assert w.writer.mailbox + [] == w.writer.mailbox;
  }

  /** FileRequestsServer with one CFP queued whose target Path accepts: the target
      is recorded and checked, and an answer, if any, lands in the sender's queue. */
  lemma ServerCfpTurn(w: World, probe: IO<bool>)
    requires |w.writer.mailbox| == 1 && w.writer.mailbox[0].performative == CFP
    requires w.writer.mailbox[0].content != [] && w.writer.fsConfigured
    ensures var m := w.writer.mailbox[0];
      var writer := w.writer.(mailbox := [], outputPath := Some(m.content),
                              storageLog := w.writer.storageLog + [Exists(m.content)]);
      ServerTurn(w, true, probe) ==
        if probe.Throws? then World(w.sender, writer)
        else
          var reply := CreateReply(m).(performative := if probe.value then Refuse else Propose,
                                       content := if probe.value then "not-ok" else "ok");
          World(w.sender.(mailbox := w.sender.mailbox + [reply]), writer.(sent := w.writer.sent + [reply]))
  {
    var m := w.writer.mailbox[0];
    ReceiveHead(MatchPerformative(CFP), w.writer.mailbox);
    var h := ServeCfp(w.writer, true, probe);
    if probe.Throws? {
      assert h.state.sent[|w.writer.sent|..] == [];
      assert w.sender.mailbox + [] == w.sender.mailbox;
    } else {
      assert h.state.sent[|w.writer.sent|..] == [h.outcome.reply];
    }
  }

  /** HDFSWriter with one ACCEPT_PROPOSAL queued and a target recorded: the storage
      calls it makes, and the answer, if any, that lands in the sender's queue. */
  lemma WriterAcceptTurn(w: World, answers: CopyAnswers)
    requires |w.writer.mailbox| == 1 && w.writer.mailbox[0].performative == AcceptProposal
    requires w.writer.fsConfigured && w.writer.outputPath.Some?
    ensures var m := w.writer.mailbox[0];
      var h := ServeAccept(w.writer, answers);
      var r := WriterTurn(w, answers);
      r.writer == h.state && r.writer.mailbox == [] && r.writer.localInputPath == Some(m.content) &&
      (answers.create.Throws? ==>
        r.sender == w.sender && r.writer.sent == w.writer.sent &&
        r.writer.storageLog == w.writer.storageLog + [Create(w.writer.outputPath.value)]) &&
      (answers.create.Ok? && answers.open.Ok? && answers.copy.Ok? && answers.isFile.Ok? ==>
        var reply := CreateReply(m).(performative := if answers.isFile.value then Inform else Failure,
                                     content := if answers.isFile.value then "success" else "failed-copy");
        r.sender == w.sender.(mailbox := w.sender.mailbox + [reply]) &&
        r.writer.sent == w.writer.sent + [reply] &&
        r.writer.storageLog == w.writer.storageLog + CopyPlan(m.content, w.writer.outputPath.value))
  {
    ReceiveHead(MatchPerformative(AcceptProposal), w.writer.mailbox);
    var h := ServeAccept(w.writer, answers);
    if h.outcome.Replied? {
      assert h.state.sent[|w.writer.sent|..] == [h.outcome.reply];
    } else {
      assert h.state.sent[|w.writer.sent|..] == [];
      assert w.sender.mailbox + [] == w.sender.mailbox;
    }
  }

  /** Both agents set up: the sender found its HDFS agent and has not acted yet,
      the writer has a file system, and no message is in flight. */
  predicate Started(w: World)
  {
    w.sender.step == 0 && w.sender.mt == MatchAll && w.sender.hdfsAgent.Some? &&
    w.sender.mailbox == [] && w.sender.sent == [] && !w.sender.deleteRequested &&
    w.writer.fsConfigured && w.writer.mailbox == [] && w.writer.sent == []
  }

  const CleanCopy := CopyAnswers(Ok(()), Ok(()), Ok(()), Ok(true))

  /** The first round, for a target Path accepts: the CFP reaches the writer, which
      records its target, checks it and answers; the answer is in the sender's queue. */
  lemma OpenRound(w0: World, token: string, probe: IO<bool>)
    requires Started(w0) && w0.sender.outputPath != []
    ensures var w2 := ServerTurn(SenderTurn(w0, token), true, probe);
      var cfp := CfpFor(w0.sender.outputPath, token);
      w2.sender.step == 1 && w2.sender.sent == [cfp] && w2.sender.deleteRequested == w0.sender.deleteRequested &&
      w2.sender.mt == ReplyTemplate(SERVICE_HDFS, CFP_PREFIX + token) &&
      w2.writer.outputPath == Some(w0.sender.outputPath) && w2.writer.mailbox == [] &&
      w2.writer.storageLog == w0.writer.storageLog + [Exists(w0.sender.outputPath)] &&
      w2.writer.fsConfigured && w2.writer.localInputPath == w0.writer.localInputPath &&
      w2.sender.inputPath == w0.sender.inputPath && w2.sender.outputPath == w0.sender.outputPath &&
      w2.sender.hdfsAgent == w0.sender.hdfsAgent &&
      (probe.Throws? ==> w2.writer.sent == [] && w2.sender.mailbox == []) &&
      (probe.Ok? ==>
        var answer := Message(if probe.value then Refuse else Propose, if probe.value then "not-ok" else "ok",
                              Some(SERVICE_HDFS), None, cfp.replyWith);
        w2.writer.sent == [answer] && w2.sender.mailbox == [answer] && Matches(w2.sender.mt, answer))
  {
    SenderSendTurn(w0, token);
    ServerCfpTurn(SenderTurn(w0, token), probe);
  }

  /** The second round, from a sender holding the PROPOSE: it moves to step 2,
      sends the ACCEPT_PROPOSAL, the writer copies and answers, and the sender
      takes the answer and finishes. */
  lemma CommitRound(w2: World, t2: string, t3: string, t4: string, isFile: bool)
    requires w2.sender.step == 1 && w2.sender.hdfsAgent.Some? && !w2.sender.deleteRequested
    requires |w2.sender.mailbox| == 1 && Matches(w2.sender.mt, w2.sender.mailbox[0])
    requires w2.sender.mailbox[0].performative == Propose
    requires w2.writer.mailbox == [] && w2.writer.fsConfigured && w2.writer.outputPath.Some?
    ensures
      var w4 := SenderTurn(SenderTurn(w2, t2), t3);
      var w6 := SenderTurn(WriterTurn(w4, CleanCopy.(isFile := Ok(isFile))), t4);
      var source, target := w2.sender.inputPath, w2.writer.outputPath.value;
      var outcome := CreateReply(AcceptFor(source, t3)).(
        performative := if isFile then Inform else Failure,
        content := if isFile then "success" else "failed-copy");
      Done(w6.sender) && w6.sender.step == 4 && w6.sender.deleteRequested == isFile &&
      w6.sender.sent == w2.sender.sent + [AcceptFor(source, t3)] &&
      w6.writer.sent == w2.writer.sent + [outcome] &&
      w6.writer.outputPath == w2.writer.outputPath && w6.writer.localInputPath == Some(source) &&
      w6.writer.storageLog == w2.writer.storageLog + CopyPlan(source, target) &&
      w6.sender.mailbox == [] && w6.writer.mailbox == []
  {
    var source := w2.sender.inputPath;
    SenderReplyTurn(w2, t2, w2.sender.mailbox[0]);
    var w3 := SenderTurn(w2, t2);
    assert w3.sender.step == 2 && w3.sender.mailbox == [] && w3.writer == w2.writer;
    SenderSendTurn(w3, t3);
    var w4 := SenderTurn(w3, t3);
    var accept := AcceptFor(source, t3);
    assert w4.writer == w2.writer.(mailbox := [accept]);
    assert w4.sender.step == 3 && w4.sender.mailbox == [];
    var answers := CleanCopy.(isFile := Ok(isFile));
    WriterAcceptTurn(w4, answers);
    var w5 := WriterTurn(w4, answers);
    var outcome := CreateReply(accept).(performative := if isFile then Inform else Failure,
                                        content := if isFile then "success" else "failed-copy");
    assert w5.sender.mailbox == [outcome];
    assert Matches(w5.sender.mt, outcome);
    SenderReplyTurn(w5, t4, outcome);
  }

  /** A completed copy: the target is one Path accepts and is absent, and every
      storage call succeeds. After CFP, PROPOSE, ACCEPT_PROPOSAL and a reply the
      sender is done; it requests
      deletion exactly when the writer found a file at the target (INFORM rather
      than FAILURE). The writer copied the sender's input to the sender's output,
      in the order create, open, copy, stat. */
  lemma CompletedCopy(w0: World, t1: string, t2: string, t3: string, t4: string, isFile: bool)
    requires Started(w0) && w0.sender.outputPath != []
    ensures
      var w2 := ServerTurn(SenderTurn(w0, t1), true, Ok(false));
      var w4 := SenderTurn(SenderTurn(w2, t2), t3);
      var w6 := SenderTurn(WriterTurn(w4, CleanCopy.(isFile := Ok(isFile))), t4);
      var source, target := w0.sender.inputPath, w0.sender.outputPath;
      Done(w6.sender) && w6.sender.step == 4 && w6.sender.deleteRequested == isFile &&
      w6.sender.sent == [CfpFor(target, t1)] + [AcceptFor(source, t3)] &&
      |w6.writer.sent| == 2 && w6.writer.sent[0].performative == Propose &&
      w6.writer.sent[1].performative == (if isFile then Inform else Failure) &&
      w6.writer.outputPath == Some(target) && w6.writer.localInputPath == Some(source) &&
      w6.writer.storageLog == w0.writer.storageLog + [Exists(target)] + CopyPlan(source, target) &&
      w6.sender.mailbox == [] && w6.writer.mailbox == []
  {
    OpenRound(w0, t1, Ok(false));
    var w2 := ServerTurn(SenderTurn(w0, t1), true, Ok(false));
    CommitRound(w2, t2, t3, t4, isFile);
  }

  /** A refused target: Path accepts it but it exists, the writer refuses, and
      the sender requests deletion but never sends ACCEPT_PROPOSAL; it stays at step 1
      (done() is false), and the writer has nonetheless recorded the refused target. */
  lemma RefusedTarget(w0: World, t1: string, t2: string, t3: string)
    requires Started(w0) && w0.sender.outputPath != []
    ensures
      var w3 := SenderTurn(ServerTurn(SenderTurn(w0, t1), true, Ok(true)), t2);
      w3.sender.step == 1 && !Done(w3.sender) && w3.sender.deleteRequested &&
      w3.sender.sent == [CfpFor(w0.sender.outputPath, t1)] &&
      w3.writer.outputPath == Some(w0.sender.outputPath) &&
      SenderTurn(w3, t3) == w3
  {
    OpenRound(w0, t1, Ok(true));
    var w2 := ServerTurn(SenderTurn(w0, t1), true, Ok(true));
    SenderReplyTurn(w2, t2, w2.sender.mailbox[0]);
    SenderWaitTurn(SenderTurn(w2, t2), t3);
  }

  /** The existence check throws: no reply is sent, and the sender waits at step 1
      for ever. */
  lemma ExistsFaultStallsSender(w0: World, t1: string, t2: string)
    requires Started(w0) && w0.sender.outputPath != []
    ensures
      var w2 := ServerTurn(SenderTurn(w0, t1), true, Throws);
      w2.sender.step == 1 && !Done(w2.sender) && SenderTurn(w2, t2) == w2
  {
    OpenRound(w0, t1, Throws);
    SenderWaitTurn(ServerTurn(SenderTurn(w0, t1), true, Throws), t2);
  }

  /** A target Path rejects (the empty one always): the CFP is consumed, the writer
      keeps its previous target, makes no storage call and sends nothing, and the
      sender waits at step 1 for ever. */
  lemma RejectedTargetStallsSender(w0: World, t1: string, t2: string, pathAccepted: bool, probe: IO<bool>)
    requires Started(w0) && (w0.sender.outputPath == [] || !pathAccepted)
    ensures
      var w2 := ServerTurn(SenderTurn(w0, t1), pathAccepted, probe);
      w2.writer.outputPath == w0.writer.outputPath && w2.writer.storageLog == w0.writer.storageLog &&
      w2.writer.sent == [] && w2.writer.mailbox == [] &&
      w2.sender.step == 1 && !Done(w2.sender) && SenderTurn(w2, t2) == w2
  {
    SenderSendTurn(w0, t1);
    var w1 := SenderTurn(w0, t1);
    ReceiveHead(MatchPerformative(CFP), w1.writer.mailbox);
    var w2 := ServerTurn(w1, pathAccepted, probe);
    assert w2.writer.sent[|w1.writer.sent|..] == [];
    assert w2.sender.mailbox == [];
    SenderWaitTurn(w2, t2);
  }

  /** The copy throws: the target was proposed but fs.create throws; the
      writer made that one storage call, sends nothing, and the sender waits at
      step 3 for ever. */
  lemma CopyFaultStallsSender(w0: World, t1: string, t2: string, t3: string, t4: string, answers: CopyAnswers)
    requires Started(w0) && w0.sender.outputPath != []
    requires answers.create.Throws?
    ensures
      var w2 := ServerTurn(SenderTurn(w0, t1), true, Ok(false));
      var w5 := WriterTurn(SenderTurn(SenderTurn(w2, t2), t3), answers);
      w5.sender.step == 3 && !Done(w5.sender) && w5.writer.sent == w2.writer.sent &&
      w5.writer.storageLog == w2.writer.storageLog + [Create(w0.sender.outputPath)] &&
      SenderTurn(w5, t4) == w5
  {
    OpenRound(w0, t1, Ok(false));
    var w2 := ServerTurn(SenderTurn(w0, t1), true, Ok(false));
    SenderReplyTurn(w2, t2, w2.sender.mailbox[0]);
    var w3 := SenderTurn(w2, t2);
    SenderSendTurn(w3, t3);
    var w4 := SenderTurn(w3, t3);
    WriterAcceptTurn(w4, answers);
    SenderWaitTurn(WriterTurn(w4, answers), t4);
  }

  /** FileRequestsServer with a CFP at the head of the queue whose target Path accepts. */
  lemma ServeCfpAtHead(w: WriterState, probe: IO<bool>)
    requires w.mailbox != [] && w.mailbox[0].performative == CFP
    requires w.mailbox[0].content != [] && w.fsConfigured && probe.Ok?
    ensures var m := w.mailbox[0];
      var h := ServeCfp(w, true, probe);
      h.outcome.Replied? &&
      h.outcome.reply.performative == (if probe.value then Refuse else Propose) &&
      h.state == w.(mailbox := w.mailbox[1..], outputPath := Some(m.content),
                    storageLog := w.storageLog + [Exists(m.content)], sent := w.sent + [h.outcome.reply])
  {
    ReceiveHead(MatchPerformative(CFP), w.mailbox);
  }

  /** Two negotiations interleaved at the writer, both targets accepted by Path: a CFP
      for a free path p, then a CFP for an existing path q (refused), then the first
      sender's ACCEPT_PROPOSAL. The
      single `outputPath` slot now holds q, so the copy is made onto q, the path
      that was refused. */
  lemma InterleavedCfpRedirectsCopy(w: WriterState, p: string, q: string, a: Message, b: Message, c: Message)
    requires w.fsConfigured && w.mailbox == [a, b, c]
    requires a.performative == CFP && b.performative == CFP && c.performative == AcceptProposal
    requires a.content == p && b.content == q && p != [] && q != []
    ensures
      var h1 := ServeCfp(w, true, Ok(false));
      var h2 := ServeCfp(h1.state, true, Ok(true));
      var h3 := ServeAccept(h2.state, CleanCopy);
      h1.outcome.Replied? && h1.outcome.reply.performative == Propose &&
      h2.outcome.Replied? && h2.outcome.reply.performative == Refuse &&
      h3.outcome.Replied? && h3.outcome.reply.performative == Inform &&
      h3.state.storageLog == w.storageLog + [Exists(p)] + [Exists(q)] + CopyPlan(c.content, q)
  {
    ServeCfpAtHead(w, Ok(false));
    var h1 := ServeCfp(w, true, Ok(false));
    var v1 := h1.state;
    assert v1.mailbox == [b, c] && v1.storageLog == w.storageLog + [Exists(p)];
    RefusalThenAccept(v1, q, b, c);
  }

  /** The second CFP, for a path that exists, and then the ACCEPT_PROPOSAL. */
  lemma RefusalThenAccept(v: WriterState, q: string, b: Message, c: Message)
    requires v.fsConfigured && v.mailbox == [b, c]
    requires b.performative == CFP && c.performative == AcceptProposal
    requires b.content == q && q != []
    ensures
      var h2 := ServeCfp(v, true, Ok(true));
      var h3 := ServeAccept(h2.state, CleanCopy);
      h2.outcome.Replied? && h2.outcome.reply.performative == Refuse &&
      h3.outcome.Replied? && h3.outcome.reply.performative == Inform &&
      h3.state.storageLog == v.storageLog + [Exists(q)] + CopyPlan(c.content, q)
  {
    ServeCfpAtHead(v, Ok(true));
    var h2 := ServeCfp(v, true, Ok(true));
    assert h2.state.mailbox == [c] && h2.state.outputPath == Some(q);
    CleanAcceptAtHead(h2.state, c);
  }

  /** A clean ACCEPT_PROPOSAL at the head of the queue copies onto whatever path
      the writer last recorded. */
  lemma CleanAcceptAtHead(v: WriterState, c: Message)
    requires v.fsConfigured && v.mailbox == [c] && v.outputPath.Some?
    requires c.performative == AcceptProposal
    ensures var h := ServeAccept(v, CleanCopy);
      h.outcome.Replied? && h.outcome.reply.performative == Inform &&
      h.state.storageLog == v.storageLog + CopyPlan(c.content, v.outputPath.value)
  {
    ReceiveHead(MatchPerformative(AcceptProposal), v.mailbox);
    ServeAcceptFollowsPlan(v, CleanCopy);
    ServeAcceptReply(v, CleanCopy);
    var plan := CopyPlan(c.content, v.outputPath.value);
    assert plan[..4] == plan;
  }
}
