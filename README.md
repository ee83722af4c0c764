# JADE–HDFS copy negotiation

Two JADE agents agree on copying a file from the local disk into HDFS.

- **SenderAgent** starts with an input path (local) and an output path (HDFS).
  - It normalises its start-up arguments.
  - It asks the directory facilitator for the one agent offering the `hdfscopy-local` service.
  - It then runs `RequestPerformer`, a five-step behaviour:
    0. Send a CFP carrying the output path.
    1. Wait for the reply to that CFP.
    2. On PROPOSE, send an ACCEPT_PROPOSAL carrying the input path.
    3. Wait for the reply to that.
    4. Done.
  - Replies are correlated by conversation id together with an in-reply-to tag: `"cfp"` or `"file"` followed by a clock reading.
- **HDFSWriterAgent** is configured from a `core-site.xml` path. It runs two cyclic behaviours that share the fields `outputPath` and `localInputPath` and the agent's message queue.
  - `FileRequestsServer` takes a CFP, turns its content into a Hadoop `Path`, stores it as the target, and asks HDFS whether the target exists. It answers PROPOSE "ok" or REFUSE "not-ok". A content that `Path` rejects (the empty string, or for example "out:1.txt") raises an unchecked exception before the target is stored, and nothing is answered.
  - `HDFSWriter` takes an ACCEPT_PROPOSAL and stores its content as the local source. It then copies the source to whatever target is currently stored, and answers INFORM "success" or FAILURE "failed-copy", depending on whether the target is then a file.
  - An `IOException` in either behaviour is printed and no answer is sent.

## How it is modelled

- `jade.dfy` (module `Jade`): the framework pieces both agents rely on.
  - ACL messages, message templates and `createReply`.
  - `receive(template)` on the agent's queue, which is a `seq<Message>`. It removes the oldest matching message, or, when nothing matches, returns nothing and leaves the queue as it was.
- `java_text.dfy` (module `JavaText`): `String.split(Pattern.quote(sep))` for a one-character separator. All fields are kept, then the empty trailing fields are dropped. When the separator does not occur, the result is the input itself.
- `writer.dfy` (module `Writer`):
  - The class `HDFSWriterAgent` has the source's fields. Its methods `Setup`, `FileRequestsServer` and `HdfsWriter` (whose try block is the method `Copy`) update them in place.
  - Each behaviour step is proved equal to a pure step function (`ServeCfp`, `ServeAccept` and its try block `CopyFile`) on a `WriterState` value, and the lemmas are stated about those functions.
  - Every storage call is an oracle answer (`IO<T>`: `Ok(v)` or `Throws`). Each call made is appended to `storageLog`, so which calls happen, and in what order, is part of the state.
  - Whether `new Path(content)` accepts a CFP's content is the input `pathAccepted` of `ServeCfp`; the empty content is rejected whatever it says.
- `sender.dfy` (module `Sender`):
  - The class `SenderAgent` has `Setup` and `Discover`, the discovery `OneShotBehaviour`.
  - The class `RequestPerformer` has `step` and `mt`. Its `Action` is proved equal to the step function `RequestStep` and keeps the invariant `Inv`.
  - `Replay` runs the behaviour over any sequence of actions and message arrivals.
  - `doDelete()` sets a `deleteRequested` flag.
  - The clock reading in each tag is an opaque `token` parameter.
  - `Deliver` on each agent stands for the framework putting a message in its queue.
- `negotiation.dfy` (module `Negotiation`): both agents as one `World`.
  - A turn is one `action()` of one behaviour. Whatever that action sends is put at the end of the other agent's queue.
  - The lemmas here are whole runs of the protocol:
    - a completed copy;
    - a refused target;
    - a target `Path` rejects;
    - an existence check that throws;
    - a copy that throws;
    - two negotiations interleaved at the writer.

### Behaviour worth noting

- A REFUSE does not finish `RequestPerformer`. The sender only calls `doDelete()`, `step` stays 1, and `done()` stays false. (`Sender.AwaitProposalStep`, `Negotiation.RefusedTarget`)
- A FAILURE answer to the ACCEPT_PROPOSAL ends the behaviour (step 4) but does not call `doDelete()`. Only INFORM does. (`Sender.AwaitOutcomeStep`)
- The directory lookup is not step 0 of the request machine. It runs in a separate `OneShotBehaviour` that adds `RequestPerformer` only when exactly one agent is found. (`Sender.SenderAgent.Discover`)
- The writer stores a CFP's target before the existence check, whatever the answer turns out to be, and it copies to whatever target is stored. A second CFP that arrives between another sender's CFP and its ACCEPT_PROPOSAL therefore redirects that copy, even onto a path that was refused. (`Negotiation.InterleavedCfpRedirectsCopy`)

## Model

| member | source | states |
|---|---|---|
| Jade.ReplyTemplate | src/SenderAgent.java:152-153 | the reply template accepts a message exactly when its conversation id and its in-reply-to are the given ones |
| Jade.CreateReply | src/HDFSWriterAgent.java:147 | a reply keeps the request's conversation id and puts the request's reply-with in its in-reply-to |
| Jade.FirstMatch | src/SenderAgent.java:158 | the index found holds a matching message and no earlier message matches; with no index found, nothing in the queue matches |
| Jade.Receive | src/SenderAgent.java:158 | the result is empty exactly when nothing matches; otherwise the oldest matching message is taken, and the rest of the queue is the old queue without it, in order |
| Jade.ReceiveArrival | src/SenderAgent.java:194 | a matching message that arrives behind messages the template rejects is the one receive returns, and the queue goes back to what it was before it arrived |
| Jade.ReceiveHead | src/HDFSWriterAgent.java:142 | when the oldest queued message matches, receive takes exactly that one |
| JavaText.Fields | src/SenderAgent.java:44 | there is at least one field, no field contains the separator, and joining the fields with the separator gives back the input |
| JavaText.FieldsOfJoin | src/SenderAgent.java:44 | splitting a join of separator-free fields gives back the same fields (round trip) |
| JavaText.DropTrailingEmpty | src/SenderAgent.java:44 | the result is a prefix of the fields, everything dropped is empty, and the result does not end in an empty field |
| JavaText.Split | src/SenderAgent.java:47 | no result field contains the separator; without the separator the result is the input itself |
| JavaText.SplitPair | src/SenderAgent.java:44 | "x<sep>y" with nonempty y gives exactly [x, y] |
| JavaText.SplitTrailingSeparator | src/SenderAgent.java:44 | "x<sep>" gives [x] (nothing when x is empty), because the empty last field is dropped |
| Sender.NormaliseArgs | src/SenderAgent.java:36-57 | arguments are produced only from one or two start-up arguments; two are taken exactly as given |
| Sender.ColonArgument | src/SenderAgent.java:42-45 | "in:out" normalises to [in, out], even when a ';' occurs too, because ':' is tried first |
| Sender.SemicolonArgument | src/SenderAgent.java:46-48 | without a ':', "in;out" normalises to [in, out] |
| Sender.TrailingColonRejected | src/SenderAgent.java:43-44 | "in:" does not give two arguments, so setup rejects it |
| Sender.NoSeparatorRejected | src/SenderAgent.java:42-49 | one argument with neither separator leaves the arguments null |
| Sender.AcceptedSingleArgument | src/SenderAgent.java:42-60 | conversely, an accepted single argument is the two separator-free paths joined by the separator used (':' if present, else ';'), with a nonempty second path and followed only by further separators |
| Sender.RequestStep | src/SenderAgent.java:138-213 | one action never changes the paths or the HDFS agent, never lowers the step, sends at most one message (appending it), and never withdraws a deletion request |
| Sender.CfpStep | src/SenderAgent.java:140-155 | step 0 sends exactly one CFP (content the output path, conversation id "hdfscopy-local", tag "cfp"+token), moves to step 1, and the new template accepts exactly the replies to that tag in that conversation |
| Sender.AwaitProposalStep | src/SenderAgent.java:156-178 | step 1: with no match nothing changes; otherwise the oldest match is consumed, PROPOSE moves to step 2, REFUSE requests deletion and stays at step 1, and any other reply is dropped with the step unchanged |
| Sender.CommitStep | src/SenderAgent.java:179-191 | step 2 sends exactly one ACCEPT_PROPOSAL (content the input path, tag "file"+token), moves to step 3, and the template accepts exactly the replies to that tag |
| Sender.AwaitOutcomeStep | src/SenderAgent.java:192-211 | step 3: with no match nothing changes; otherwise the oldest match is consumed, the step becomes 4 and done() holds, and deletion is requested only for INFORM |
| Sender.StepKeepsInv | src/SenderAgent.java:135-213 | each action keeps the step in 0..4 and the template matched to the step, raises the step by at most one, and sends exactly the messages the steps it passes account for |
| Sender.StepSendsRequests | src/SenderAgent.java:145-190 | the one message an action can send is the CFP with the output path tagged "cfp…" when leaving step 0, or the ACCEPT_PROPOSAL with the input path tagged "file…" when leaving step 2, both in the HDFS conversation |
| Sender.FinishesOnOutcome | src/SenderAgent.java:215-220 | an action that makes done() true sends nothing and consumes a matching reply; with the HDFS agent known that can only be the reply to the ACCEPT_PROPOSAL, in step 3; with none recorded it can also be the PROPOSE in step 1 |
| Sender.StaleCfpReplyIgnored | src/SenderAgent.java:185-189 | from step 3 on, a reply to any "cfp" tag can never satisfy the template, whatever the tokens were |
| Sender.ReplayKeepsInv | src/SenderAgent.java:134-220 | over any run of actions and arrivals the step only grows, the invariant holds, the new messages are at most one CFP with the output path followed by at most one ACCEPT_PROPOSAL with the input path (earlier messages untouched), and once done() holds nothing more changes step or sends |
| Sender.SenderAgent.constructor | src/SenderAgent.java:25-27 | a new agent has no paths, no HDFS agent, an empty queue and no behaviours |
| Sender.SenderAgent.Setup | src/SenderAgent.java:33-121 | with exactly two normalised arguments, the paths are recorded, deletion is requested if the input is missing locally, and discovery is added; otherwise only deletion is requested and no behaviour is added |
| Sender.SenderAgent.Discover | src/SenderAgent.java:79-113 | exactly one result records that agent and adds a fresh RequestPerformer at step 0; zero or several request deletion; a failed search does nothing; no message is ever sent |
| Sender.RequestPerformer.constructor | src/SenderAgent.java:134-136 | a new behaviour is at step 0 with no template |
| Sender.RequestPerformer.Action | src/SenderAgent.java:138-213 | action() updates the agent and the behaviour exactly as RequestStep does and keeps the invariant |
| Writer.ServeCfp | src/HDFSWriterAgent.java:140-167 | a step never touches localInputPath, and sends one message exactly when it replies; whether `new Path` accepts the content is an input, and the empty content is always rejected |
| Writer.ServeCfpTakesOldestCfp | src/HDFSWriterAgent.java:141-166 | only a CFP is taken, the oldest one, whatever its conversation; with no CFP queued the step changes nothing |
| Writer.ServeCfpRecordsTarget | src/HDFSWriterAgent.java:145-149 | a content Path accepts overwrites outputPath before the existence check, whatever it answers; a content Path rejects (always the empty one) leaves outputPath as it was, and it or a missing file system ends the step with no storage call and no reply |
| Writer.ServeCfpReply | src/HDFSWriterAgent.java:146-162 | for a target Path accepts and a working file system: the check throws exactly when no reply is sent; otherwise exactly one reply, PROPOSE "ok" when the target is absent and REFUSE "not-ok" when present, correlated with the CFP |
| Writer.ServeAccept | src/HDFSWriterAgent.java:175-207 | a step never touches outputPath, and sends one message exactly when it replies |
| Writer.CopyFile | src/HDFSWriterAgent.java:182-202 | once the ACCEPT_PROPOSAL is taken, the try block changes only the storage log and the sent messages, never ends idle, and sends one message exactly when it replies |
| Writer.ServeAcceptTakesOldestAccept | src/HDFSWriterAgent.java:176-180 | only an ACCEPT_PROPOSAL is taken, the oldest one, and its content becomes localInputPath; with none queued nothing changes |
| Writer.ServeAcceptFollowsPlan | src/HDFSWriterAgent.java:182-189 | the storage calls made are a nonempty prefix of create(target), open(source), copy(source, target), status(target) on whatever target is stored, ending exactly at the first that throws (one call if create throws, two if open does, three if copy does, else four) |
| Writer.ServeAcceptReply | src/HDFSWriterAgent.java:189-202 | a reply is sent exactly when no call throws; it is INFORM "success" exactly when the target is a file, else FAILURE "failed-copy", correlated with the ACCEPT_PROPOSAL |
| Writer.ServeAcceptWithoutTarget | src/HDFSWriterAgent.java:184 | with no target stored or no file system, the step ends with an unchecked exception, no storage call and no reply |
| Writer.HDFSWriterAgent.constructor | src/HDFSWriterAgent.java:37-40 | a new agent has no paths, no file system, an empty queue and no behaviours |
| Writer.HDFSWriterAgent.Setup | src/HDFSWriterAgent.java:46-104 | with exactly one argument naming an existing config file: when the configuration loads, the file system is configured as FileSystem.get allows and both behaviours are added; when `new Path` or Configuration throws, setup ends with an unchecked exception, no behaviour added and no deletion requested; otherwise only deletion is requested |
| Writer.HDFSWriterAgent.FileRequestsServer | src/HDFSWriterAgent.java:140-167 | the agent's new fields and the outcome are exactly ServeCfp of its old fields, for the given Path acceptance and existence answer |
| Writer.HDFSWriterAgent.HdfsWriter | src/HDFSWriterAgent.java:175-207 | the agent's new fields and the outcome are exactly ServeAccept of its old fields |
| Writer.HDFSWriterAgent.Copy | src/HDFSWriterAgent.java:182-202 | the agent's new fields and the outcome are exactly CopyFile of its old fields |
| Negotiation.SenderTurn | src/SenderAgent.java:150 | the sender's sent messages only grow, earlier ones untouched |
| Negotiation.SenderSendTurn | src/SenderAgent.java:145-155 | in steps 0 and 2 the sender's one new message is appended to the writer's queue |
| Negotiation.SenderReplyTurn | src/SenderAgent.java:156-211 | a single matching queued reply is consumed with the step change of step 1 or step 3 |
| Negotiation.SenderWaitTurn | src/SenderAgent.java:158-177 | in steps 1 and 3 with no matching reply, the turn changes nothing |
| Negotiation.ServerCfpTurn | src/HDFSWriterAgent.java:140-167 | a single queued CFP whose target Path accepts is recorded and checked, and its answer, if any, lands in the sender's queue |
| Negotiation.WriterAcceptTurn | src/HDFSWriterAgent.java:175-207 | a single queued ACCEPT_PROPOSAL makes the storage calls of the plan, and its answer, if any, lands in the sender's queue |
| Negotiation.OpenRound | src/SenderAgent.java:140-155 | for a target Path accepts, the CFP reaches the writer, which records and checks the target; its PROPOSE or REFUSE, correlated with the CFP, is in the sender's queue |
| Negotiation.CommitRound | src/SenderAgent.java:156-211 | from a held PROPOSE, the sender commits, the writer copies, and the sender takes the answer and is done |
| Negotiation.CompletedCopy | src/SenderAgent.java:138-220 | a full run with a target Path accepts, that is absent, and no storage fault: the sender is done after CFP, PROPOSE, ACCEPT_PROPOSAL and the answer; it requests deletion exactly on INFORM; the writer copied the input to the output in the order exists, create, open, copy, status |
| Negotiation.RefusedTarget | src/SenderAgent.java:166-172 | a target Path accepts but that exists is refused; the sender requests deletion, never sends ACCEPT_PROPOSAL, and stays at step 1, not done; the writer still holds the refused target |
| Negotiation.ExistsFaultStallsSender | src/HDFSWriterAgent.java:160-162 | when the existence check throws, no reply is sent and the sender waits at step 1 indefinitely |
| Negotiation.RejectedTargetStallsSender | src/HDFSWriterAgent.java:145-146 | a target Path rejects (always the empty one) is consumed with no storage call and no reply; the writer keeps its previous target and the sender waits at step 1 indefinitely |
| Negotiation.CopyFaultStallsSender | src/HDFSWriterAgent.java:184-202 | for a target Path accepts and that is proposed, when create throws the writer has made that one call and sends nothing, and the sender waits at step 3 indefinitely |
| Negotiation.ServeCfpAtHead | src/HDFSWriterAgent.java:141-158 | a CFP at the head of the queue whose target Path accepts, with an answered check, gives the exact new writer state and the reply |
| Negotiation.InterleavedCfpRedirectsCopy | src/HDFSWriterAgent.java:145-189 | with targets Path accepts: CFP for p (proposed), CFP for q (refused), then the ACCEPT_PROPOSAL replying to the first: the copy succeeds and is made onto q, the refused path |
| Negotiation.RefusalThenAccept | src/HDFSWriterAgent.java:146-189 | a refused CFP for a q Path accepts, followed by a clean ACCEPT_PROPOSAL, copies onto q |
| Negotiation.CleanAcceptAtHead | src/HDFSWriterAgent.java:176-198 | a clean ACCEPT_PROPOSAL at the head of the queue copies onto the stored target and answers INFORM |

## Left out

- Hadoop `Configuration`, `FileSystem.get`, `IOUtils.copyBytes` and the byte streams: these are foreign library I/O. Each call is an oracle answer. Only which calls are made, their order and what they answer are modelled. Byte contents and partial copies are not.
- `takeDown` of both agents (directory deregistration and the `fsck` run): audit-only foreign calls made after the protocol.
- `DFService.register` and the internals of `DFService.search`: the search is its list of results, or a failure standing for a `FIPAException`.
- The local `Files.exists` check on the sender's input: it is the boolean parameter `inputExists`.
- `System.currentTimeMillis` in the reply-with tags: an opaque token. Only the "cfp" and "file" prefixes matter.
- The JADE scheduler, `block()` and delivery timing: each `action()` is one atomic step, and delivery is an explicit event (`Deliver`, `Event.Arrive`, a `Negotiation` turn).
- What JADE does after an unchecked exception escapes `action()` (`new Path` rejecting the content, a null `fs`, a null `outputPath`) or the writer's `setup()` (`new Path` rejecting the config name, Configuration failing to parse it): the model ends that step with the outcome `Unchecked` and nothing further.
- Which existing config names `new Path` rejects, and which config files Configuration fails to parse, is the oracle input `configLoaded` of the writer's `Setup`. `Paths.get` rejecting a name (a NUL character) is not modelled.
- Message addressing (receiver and sender AIDs): there is one sender and one writer, so every message goes to the other agent.
- Hadoop `Path` parsing: which nonempty strings `new Path` rejects (for example a relative path behind a scheme, "out:1.txt") is the oracle input `pathAccepted`; the empty string is always rejected. An accepted target is the CFP's text as given, without Hadoop's normalisation.
- All `println` and `printStackTrace` output.
- Jade.CreateReply: JADE also gives the reply a fresh reply-with of its own; the model leaves it unset, because no template in either agent reads a reply's reply-with.
- `doDelete()` taking effect: the model only sets `deleteRequested`, and the agent's behaviours may go on running afterwards (for example, a sender whose input file is missing still discovers the writer and sends its CFP). JADE stops the agent once the deletion is carried out; no lemma relies on running past that point, since the whole-run lemmas start from an agent with no deletion requested.
- Sender.SenderAgent.Setup: the Java fields start as null. The model starts the paths as the empty string; no reachable step reads them before they are set.
