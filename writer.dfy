/** HDFSWriterAgent: the agent that owns the HDFS namespace. Two cyclic behaviours
    share its `outputPath` and `localInputPath` fields and its message queue:
    FileRequestsServer answers a CFP after checking whether the target exists, and
    HDFSWriter answers an ACCEPT_PROPOSAL after copying the local file to the target.
    Hadoop calls are oracle answers; every call made is written to `storageLog`. */
module Writer {
  import opened Jade

  /** The service type the agent registers and the conversation id senders use. */
  const SERVICE_HDFS := "hdfscopy-local"

  /** A call into Hadoop's FileSystem or the local file system. */
  datatype StorageOp =
    | Exists(path: string)
    | Create(path: string)
    | OpenLocal(path: string)
    | CopyBytes(source: string, target: string)
    | GetFileStatus(path: string)

  /** What the calls of one HDFSWriter step answer: fs.create, new FileInputStream,
      IOUtils.copyBytes, and fs.getFileStatus(..).isFile(). */
  datatype CopyAnswers = CopyAnswers(create: IO<()>, open: IO<()>, copy: IO<()>, isFile: IO<bool>)

  /** How one behaviour step ended: nothing to receive, a reply sent, an IOException
      caught and printed, or an unchecked exception escaping action(). */
  datatype Outcome = Idle | Replied(reply: Message) | IOFailure | Unchecked

  /** The fields both behaviours read and write. `fsConfigured` is false when
      FileSystem.get failed in setup and `fs` stayed null. */
  datatype WriterState = WriterState(
    outputPath: Option<string>,
    localInputPath: Option<string>,
    fsConfigured: bool,
    mailbox: seq<Message>,
    sent: seq<Message>,
    storageLog: seq<StorageOp>)

  datatype Handled = Handled(state: WriterState, outcome: Outcome)

  datatype Behaviour = ServerBehaviour | WriterBehaviour

  /** The condition under which setup goes on to configure the file system rather
      than request deletion: exactly one argument, naming a core-site.xml that exists. */
  predicate ServesRequests(arguments: Option<seq<string>>, configExists: bool)
  {
    arguments.Some? && |arguments.value| == 1 && configExists
  }

  /** One FileRequestsServer.action(). `pathAccepted` is whether `new Path(content)`
      returns: Path always rejects the empty string, and also rejects what Hadoop's
      URI parsing refuses, such as a relative path behind a scheme ("out:1.txt");
      `probe` is what fs.exists answers. */
  function ServeCfp(w: WriterState, pathAccepted: bool, probe: IO<bool>): (h: Handled)
    ensures h.state.localInputPath == w.localInputPath && h.state.fsConfigured == w.fsConfigured
    ensures h.outcome.Replied? ==> h.state.sent == w.sent + [h.outcome.reply]
    ensures !h.outcome.Replied? ==> h.state.sent == w.sent
  {
    match Receive(MatchPerformative(CFP), w.mailbox)
    case None => Handled(w, Idle)
    case Some(Received(msg, rest)) =>
      if msg.content == [] || !pathAccepted then
        // new Path(..) throws IllegalArgumentException before outputPath is assigned
        Handled(w.(mailbox := rest), Unchecked)
      else
        var w1 := w.(mailbox := rest, outputPath := Some(msg.content));
        if !w.fsConfigured then
          // fs is null: fs.exists raises NullPointerException
          Handled(w1, Unchecked)
        else
          var w2 := w1.(storageLog := w1.storageLog + [Exists(msg.content)]);
          match probe
          case Throws => Handled(w2, IOFailure)
          case Ok(found) =>
            var reply := CreateReply(msg).(
              performative := if found then Refuse else Propose,
              content := if found then "not-ok" else "ok");
            Handled(w2.(sent := w2.sent + [reply]), Replied(reply))
  }

  /** The storage calls HDFSWriter makes, in order, when every one succeeds. */
  function CopyPlan(source: string, target: string): seq<StorageOp>
  {
    [Create(target), OpenLocal(source), CopyBytes(source, target), GetFileStatus(target)]
  }

  /** One HDFSWriter.action(). */
  function ServeAccept(w: WriterState, answers: CopyAnswers): (h: Handled)
    ensures h.state.outputPath == w.outputPath && h.state.fsConfigured == w.fsConfigured
    ensures h.outcome.Replied? ==> h.state.sent == w.sent + [h.outcome.reply]
    ensures !h.outcome.Replied? ==> h.state.sent == w.sent
  {
    match Receive(MatchPerformative(AcceptProposal), w.mailbox)
    case None => Handled(w, Idle)
    case Some(Received(msg, rest)) =>
      CopyFile(w.(mailbox := rest, localInputPath := Some(msg.content)), msg, answers)
  }

  /** The body of HDFSWriter.action() once `msg` is taken and its content recorded:
      the copy touches only the storage log and the sent messages. */
  function CopyFile(w: WriterState, msg: Message, answers: CopyAnswers): (h: Handled)
    ensures h.state.mailbox == w.mailbox && h.state.localInputPath == w.localInputPath
    ensures h.state.outputPath == w.outputPath && h.state.fsConfigured == w.fsConfigured
    ensures h.outcome != Idle
    ensures h.outcome.Replied? ==> h.state.sent == w.sent + [h.outcome.reply]
    ensures !h.outcome.Replied? ==> h.state.sent == w.sent
  {
    var source := msg.content;
    if !w.fsConfigured || w.outputPath.None? then
      // fs.create on a null fs or a null Path
      Handled(w, Unchecked)
    else
      var target := w.outputPath.value;
      var w2 := w.(storageLog := w.storageLog + [Create(target)]);
      if answers.create.Throws? then Handled(w2, IOFailure)
      else
        var w3 := w2.(storageLog := w2.storageLog + [OpenLocal(source)]);
        if answers.open.Throws? then Handled(w3, IOFailure)
        else
          var w4 := w3.(storageLog := w3.storageLog + [CopyBytes(source, target)]);
          if answers.copy.Throws? then Handled(w4, IOFailure)
          else
            var w5 := w4.(storageLog := w4.storageLog + [GetFileStatus(target)]);
            match answers.isFile
            case Throws => Handled(w5, IOFailure)
            case Ok(isFile) =>
              var reply := CreateReply(msg).(
                performative := if isFile then Inform else Failure,
                content := if isFile then "success" else "failed-copy");
              Handled(w5.(sent := w5.sent + [reply]), Replied(reply))
  }

  // ---------------------------------------------------------------------------
  // Properties of FileRequestsServer

  /** Only a CFP is taken, whatever its conversation id; with none queued the step changes nothing. */
  lemma ServeCfpTakesOldestCfp(w: WriterState, pathAccepted: bool, probe: IO<bool>)
    ensures var i := FirstMatch(MatchPerformative(CFP), w.mailbox);
      var h := ServeCfp(w, pathAccepted, probe);
      (i.None? <==> h == Handled(w, Idle)) &&
      (i.Some? ==> w.mailbox[i.value].performative == CFP &&
                   h.state.mailbox == w.mailbox[..i.value] + w.mailbox[i.value + 1..])
  {
  }

  /** The CFP's content is stored as the target before the existence check, whatever
      the check answers; a content Path rejects (always the empty one) leaves the target
      as it was, and the step ends with no storage call and no reply. */
  lemma ServeCfpRecordsTarget(w: WriterState, pathAccepted: bool, probe: IO<bool>)
    requires Receive(MatchPerformative(CFP), w.mailbox).Some?
    ensures var msg := Receive(MatchPerformative(CFP), w.mailbox).value.msg;
      var isPath := msg.content != [] && pathAccepted;
      var h := ServeCfp(w, pathAccepted, probe);
      h.state.outputPath == (if isPath then Some(msg.content) else w.outputPath) &&
      (isPath && w.fsConfigured ==> h.state.storageLog == w.storageLog + [Exists(msg.content)]) &&
      (!isPath || !w.fsConfigured ==> h.state.storageLog == w.storageLog && h.outcome == Unchecked)
  {
  }

  /** With a working file system, exactly one reply follows an answered check:
      PROPOSE "ok" when the target is absent, REFUSE "not-ok" when it is present,
      correlated with the CFP; a failed check sends nothing. This needs a target
      Path accepts: for any other, ServeCfpRecordsTarget says no reply is sent. */
  lemma ServeCfpReply(w: WriterState, pathAccepted: bool, probe: IO<bool>)
    requires Receive(MatchPerformative(CFP), w.mailbox).Some?
    requires Receive(MatchPerformative(CFP), w.mailbox).value.msg.content != [] && pathAccepted
    requires w.fsConfigured
    ensures var msg := Receive(MatchPerformative(CFP), w.mailbox).value.msg;
      var h := ServeCfp(w, pathAccepted, probe);
      (probe.Throws? <==> h.outcome == IOFailure) &&
      (probe.Ok? <==> h.outcome.Replied?) &&
      (h.outcome.Replied? ==>
        var r := h.outcome.reply;
        r.performative == (if probe.value then Refuse else Propose) &&
        r.content == (if probe.value then "not-ok" else "ok") &&
        r.conversationId == msg.conversationId && r.inReplyTo == msg.replyWith)
  {
  }

  // ---------------------------------------------------------------------------
  // Properties of HDFSWriter

  /** Only an ACCEPT_PROPOSAL is taken; its content becomes `localInputPath`; with
      none queued the step changes nothing. */
  lemma ServeAcceptTakesOldestAccept(w: WriterState, answers: CopyAnswers)
    ensures var i := FirstMatch(MatchPerformative(AcceptProposal), w.mailbox);
      var h := ServeAccept(w, answers);
      (i.None? <==> h == Handled(w, Idle)) &&
      (i.Some? ==> w.mailbox[i.value].performative == AcceptProposal &&
                   h.state.mailbox == w.mailbox[..i.value] + w.mailbox[i.value + 1..] &&
                   h.state.localInputPath == Some(w.mailbox[i.value].content))
  {
  }

  /** The storage calls made are a prefix of create, open, copy, stat, on whatever
      target `outputPath` holds; the step stops at the first call that throws, and
      a reply is sent only after all four have answered. */
  lemma ServeAcceptFollowsPlan(w: WriterState, answers: CopyAnswers)
    requires Receive(MatchPerformative(AcceptProposal), w.mailbox).Some?
    requires w.fsConfigured && w.outputPath.Some?
    ensures var source := Receive(MatchPerformative(AcceptProposal), w.mailbox).value.msg.content;
      var plan := CopyPlan(source, w.outputPath.value);
      var h := ServeAccept(w, answers);
      var n := |h.state.storageLog| - |w.storageLog|;
      0 < n <= 4 && h.state.storageLog == w.storageLog + plan[..n] &&
      n == (if answers.create.Throws? then 1 else if answers.open.Throws? then 2
            else if answers.copy.Throws? then 3 else 4) &&
      (h.outcome.Replied? <==> n == 4 && answers.isFile.Ok?)
  {
    var source := Receive(MatchPerformative(AcceptProposal), w.mailbox).value.msg.content;
    var plan := CopyPlan(source, w.outputPath.value);
    assert plan[..1] == [Create(w.outputPath.value)];
    assert plan[..2] == plan[..1] + [OpenLocal(source)];
    assert plan[..3] == plan[..2] + [CopyBytes(source, w.outputPath.value)];
    assert plan[..4] == plan;
  }

  /** After a copy that raised nothing, the reply is INFORM "success" exactly when
      the target is a file and FAILURE "failed-copy" otherwise, correlated with the
      ACCEPT_PROPOSAL; any IOException means no reply. */
  lemma ServeAcceptReply(w: WriterState, answers: CopyAnswers)
    requires Receive(MatchPerformative(AcceptProposal), w.mailbox).Some?
    requires w.fsConfigured && w.outputPath.Some?
    ensures var msg := Receive(MatchPerformative(AcceptProposal), w.mailbox).value.msg;
      var h := ServeAccept(w, answers);
      var clean := answers.create.Ok? && answers.open.Ok? && answers.copy.Ok? && answers.isFile.Ok?;
      (clean <==> h.outcome.Replied?) && (!clean ==> h.outcome == IOFailure) &&
      (h.outcome.Replied? ==>
        var r := h.outcome.reply;
        (r.performative == Inform <==> answers.isFile.value) &&
        r.performative in {Inform, Failure} &&
        r.content == (if answers.isFile.value then "success" else "failed-copy") &&
        r.conversationId == msg.conversationId && r.inReplyTo == msg.replyWith)
  {
  }

  /** An ACCEPT_PROPOSAL with no target recorded, or with no file system, sends nothing and touches no storage. */
  lemma ServeAcceptWithoutTarget(w: WriterState, answers: CopyAnswers)
    requires Receive(MatchPerformative(AcceptProposal), w.mailbox).Some?
    requires !w.fsConfigured || w.outputPath.None?
    ensures var h := ServeAccept(w, answers);
      h.outcome == Unchecked && h.state.storageLog == w.storageLog && h.state.sent == w.sent
  {
  }

  // ---------------------------------------------------------------------------
  // The agent object

  class HDFSWriterAgent {
    var outputPath: Option<string>
    var localInputPath: Option<string>
    var fsConfigured: bool
    var mailbox: seq<Message>
    var sent: seq<Message>
    var storageLog: seq<StorageOp>
    var deleteRequested: bool
    var behaviours: seq<Behaviour>

    function State(): WriterState
      reads this
    {
      WriterState(outputPath, localInputPath, fsConfigured, mailbox, sent, storageLog)
    }

    constructor ()
      ensures State() == WriterState(None, None, false, [], [], [])
      ensures !deleteRequested && behaviours == []
    {
      outputPath, localInputPath, fsConfigured := None, None, false;
      mailbox, sent, storageLog := [], [], [];
      deleteRequested, behaviours := false, [];
    }

    /** setup(): with one argument naming an existing core-site.xml, load the
        configuration, configure the file system and add both behaviours; otherwise
        request deletion. `configLoaded` is whether loading returns: `new Path` refuses
        some names that exist (such as "conf:core-site.xml") and a malformed file makes
        Configuration throw when it is first read; either way an unchecked exception
        leaves setup before any behaviour is added. `fsAvailable` is whether
        FileSystem.get succeeded. */
    method Setup(arguments: Option<seq<string>>, configExists: bool, configLoaded: bool, fsAvailable: bool)
      returns (outcome: Outcome)
      modifies this
      ensures outcome == (if ServesRequests(arguments, configExists) && !configLoaded then Unchecked else Idle)
      ensures ServesRequests(arguments, configExists) && configLoaded ==>
        fsConfigured == fsAvailable && behaviours == old(behaviours) + [ServerBehaviour, WriterBehaviour] &&
        deleteRequested == old(deleteRequested)
      ensures ServesRequests(arguments, configExists) && !configLoaded ==>
        fsConfigured == old(fsConfigured) && behaviours == old(behaviours) && deleteRequested == old(deleteRequested)
      ensures !ServesRequests(arguments, configExists) ==>
        fsConfigured == old(fsConfigured) && behaviours == old(behaviours) && deleteRequested
      ensures outputPath == old(outputPath) && localInputPath == old(localInputPath)
      ensures mailbox == old(mailbox) && sent == old(sent) && storageLog == old(storageLog)
    {
      outcome := Idle;
      if arguments.Some? && |arguments.value| == 1 {
        if configExists {
          if !configLoaded {
            // Path or Configuration throws before FileSystem.get
            return Unchecked;
          }
          fsConfigured := fsAvailable;
          behaviours := behaviours + [ServerBehaviour];
          behaviours := behaviours + [WriterBehaviour];
        } else {
          deleteRequested := true;
        }
      } else {
        deleteRequested := true;
      }
    }

    /** The message fabric placing a message in this agent's queue. */
    method Deliver(m: Message)
      modifies this
      ensures State() == old(State()).(mailbox := old(mailbox) + [m])
      ensures deleteRequested == old(deleteRequested) && behaviours == old(behaviours)
    {
      mailbox := mailbox + [m];
    }

    /** FileRequestsServer.action(); `pathAccepted` is whether `new Path` accepts the
        content, `probe` is what fs.exists answers. */
    method FileRequestsServer(pathAccepted: bool, probe: IO<bool>) returns (outcome: Outcome)
      modifies this
      ensures Handled(State(), outcome) == ServeCfp(old(State()), pathAccepted, probe)
      ensures deleteRequested == old(deleteRequested) && behaviours == old(behaviours)
    {
      var received := Receive(MatchPerformative(CFP), mailbox);
      if received.None? {
        return Idle;
      }
      var msg := received.value.msg;
      mailbox := received.value.rest;
      if msg.content == [] || !pathAccepted {
        return Unchecked;
      }
      outputPath := Some(msg.content);
      var reply := CreateReply(msg);
      if !fsConfigured {
        return Unchecked;
      }
      storageLog := storageLog + [Exists(msg.content)];
      if probe.Throws? {
        return IOFailure;
      }
      if !probe.value {
        reply := reply.(performative := Propose);
        reply := reply.(content := "ok");
      } else {
        reply := reply.(performative := Refuse);
        reply := reply.(content := "not-ok");
      }
      sent := sent + [reply];
      outcome := Replied(reply);
    }

    /** HDFSWriter.action(); `answers` are what the storage calls answer. */
    method HdfsWriter(answers: CopyAnswers) returns (outcome: Outcome)
      modifies this
      ensures Handled(State(), outcome) == ServeAccept(old(State()), answers)
      ensures deleteRequested == old(deleteRequested) && behaviours == old(behaviours)
    {
      var received := Receive(MatchPerformative(AcceptProposal), mailbox);
      if received.None? {
        return Idle;
      }
      var msg := received.value.msg;
      mailbox := received.value.rest;
      localInputPath := Some(msg.content);
      outcome := Copy(msg, answers);
    }

    /** The try block of HDFSWriter.action(), once `msg` has been taken. */
    method Copy(msg: Message, answers: CopyAnswers) returns (outcome: Outcome)
      requires localInputPath == Some(msg.content)
      modifies this
      ensures Handled(State(), outcome) == CopyFile(old(State()), msg, answers)
      ensures deleteRequested == old(deleteRequested) && behaviours == old(behaviours)
    {
      var reply := CreateReply(msg);
      if !fsConfigured || outputPath.None? {
        return Unchecked;
      }
      var target := outputPath.value;
      storageLog := storageLog + [Create(target)];
      if answers.create.Throws? {
        return IOFailure;
      }
      storageLog := storageLog + [OpenLocal(localInputPath.value)];
      if answers.open.Throws? {
        return IOFailure;
      }
      storageLog := storageLog + [CopyBytes(localInputPath.value, target)];
      if answers.copy.Throws? {
        return IOFailure;
      }
      storageLog := storageLog + [GetFileStatus(target)];
      if answers.isFile.Throws? {
        return IOFailure;
      }
      if answers.isFile.value {
        reply := reply.(performative := Inform);
        reply := reply.(content := "success");
      } else {
        reply := reply.(performative := Failure);
        reply := reply.(content := "failed-copy");
      }
      sent := sent + [reply];
      outcome := Replied(reply);
    }
  }
}
