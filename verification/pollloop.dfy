/**
 * One pass of the server's poll loop (`cycle_loop`): the cycle counter goes
 * up by one, the last message visible on the page is answered unless it is
 * in the short history of messages already handled, and every tenth cycle
 * the page is refreshed, the instruction text is sent again and the history
 * is forgotten. The browser is a channel: what the page shows is an input,
 * and what the server sends is appended to `sent`.
 */
module PollLoop {
  import opened Strings
  import opened Wrappers
  import opened Protocol
  import opened Handlers
  import opened Router
  import opened Chunker

  /** `MAX_HISTORY`: how many handled messages are remembered. */
  const MaxHistory: nat := 5
  /** `refresh_cycle`: the page is refreshed when the counter is a multiple of this. */
  const RefreshCycle: nat := 10

  /** What the loop carries from one cycle to the next, and what it has sent so far. */
  datatype LoopState = LoopState(history: seq<string>, cycleCount: nat, files: Files, sent: seq<string>)

  /**
   * What one cycle reads from outside: the messages the page shows, the
   * handlers' environment, and whether a scheduled refresh of the page
   * succeeds.
   */
  datatype CycleInput = CycleInput(polled: seq<string>, env: Env, refreshOk: bool)

  /**
   * The router the loop hands a new message to: `Router.Process` in the
   * server, any function of the same shape in the lemmas below, which hold
   * whatever the router does.
   */
  type Route = (string, Env, Files) -> Outcome

  /** The message a cycle considers: the last one on the page, unless it was handled already. */
  function Candidate(polled: seq<string>, history: seq<string>): (r: Option<string>)
    ensures r.Some? <==> polled != [] && polled[|polled| - 1] !in history
    ensures r.Some? ==> r.value == polled[|polled| - 1]
  {
    if polled == [] then None
    else
      var latest := polled[|polled| - 1];
      if latest in history then None else Some(latest)
  }

  /** The history after handling `m`: `m` appended, the oldest entry dropped beyond the bound. */
  function Remember(history: seq<string>, m: string): seq<string>
  {
    var h := history + [m];
    if |h| > MaxHistory then h[1..] else h
  }

  /** The messages that carry a reply: its parts, or nothing when there is no reply or it is empty. */
  function Transmit(reply: Option<string>): seq<string>
  {
    if reply.Some? && reply.value != [] then Chunks(reply.value, MaxContentLength) else []
  }

  /**
   * What handling `m` with outcome `o` leaves: on an exception nothing
   * changes; otherwise the reply is sent, the files are the handler's and `m`
   * is remembered.
   */
  function Respond(s: LoopState, m: string, o: Outcome): (r: LoopState)
    ensures r.cycleCount == s.cycleCount
    ensures |r.sent| >= |s.sent| && r.sent[..|s.sent|] == s.sent
  {
    match o
    case Raised => s
    case Done(reply, files) =>
      s.(history := Remember(s.history, m), files := files, sent := s.sent + Transmit(reply))
  }

  /** The guarded body of the loop: find a new message, route it, send the reply, remember it. */
  function Exchange(s: LoopState, input: CycleInput, route: Route): LoopState
  {
    var c := Candidate(input.polled, s.history);
    if c.None? || c.value == [] then s else Respond(s, c.value, route(c.value, input.env, s.files))
  }

  /** The scheduled refresh after the cycle that left `t`. */
  function Refresh(t: LoopState, input: CycleInput, instruction: string): LoopState
  {
    if RefreshDue(t.cycleCount) && input.refreshOk then
      t.(history := [], sent := t.sent + Chunks(instruction, MaxContentLength))
    else t
  }

  /** Whether the scheduled refresh happens after the cycle numbered `count`. */
  predicate RefreshDue(count: nat)
  {
    count % RefreshCycle == 0
  }

  /** One iteration of `cycle_loop`, with `instruction` the text sent after a refresh. */
  function Step(s: LoopState, input: CycleInput, instruction: string, route: Route): LoopState
  {
    Refresh(Exchange(s.(cycleCount := s.cycleCount + 1), input, route), input, instruction)
  }

  /** Several iterations in a row. */
  function Run(s: LoopState, inputs: seq<CycleInput>, instruction: string, route: Route): LoopState
    decreases |inputs|
  {
    if inputs == [] then s else Run(Step(s, inputs[0], instruction, route), inputs[1..], instruction, route)
  }

  /** The loop's own variables, updated in place from cycle to cycle. */
  class Server {
    var history: seq<string>
    var cycleCount: nat
    var files: Files
    var sent: seq<string>
    const instruction: string

    function State(): LoopState
      reads this
    {
      LoopState(history, cycleCount, files, sent)
    }

    predicate Valid()
      reads this
    {
      |history| <= MaxHistory
    }

    constructor(instruction: string, files: Files)
      ensures Valid()
      ensures State() == LoopState([], 0, files, [])
      ensures this.instruction == instruction
    {
      this.history := [];
      this.cycleCount := 0;
      this.files := files;
      this.sent := [];
      this.instruction := instruction;
    }

    /** Sends each of `parts` in turn. */
    method SendAll(parts: seq<string>)
      modifies this
      ensures sent == old(sent) + parts
      ensures history == old(history) && cycleCount == old(cycleCount) && files == old(files)
    {
      for i := 0 to |parts|
        invariant sent == old(sent) + parts[..i]
        invariant history == old(history) && cycleCount == old(cycleCount) && files == old(files)
      {
        sent := sent + [parts[i]];
      }
      assert parts[..|parts|] == parts;
    }

    /** Sends the reply of a handled message, if any, and remembers the message. */
    method Deliver(m: string, outcome: Outcome)
      requires Valid()
      modifies this
      ensures Valid()
      ensures State() == Respond(old(State()), m, outcome)
    {
      if outcome.Done? {
        files := outcome.files;
        if outcome.reply.Some? && outcome.reply.value != [] {
          var parts := SplitLongText(outcome.reply.value, MaxContentLength);
          SendAll(parts);
        }
        history := history + [m];
        if |history| > MaxHistory {
          history := history[1..];
        }
      }
    }

    /** One iteration of `cycle_loop`. */
    method Cycle(input: CycleInput)
      requires Valid()
      modifies this
      ensures Valid()
      ensures State() == Step(old(State()), input, instruction, Process)
    {
      ghost var s := State();
      cycleCount := cycleCount + 1;
      ghost var counted := State();
      Poll(input);
      ghost var polled := State();
      MaybeRefresh(input);
      StepComposed(s, input, instruction, Process, counted, polled, State());
    }

    /** Reads the last message on the page and, when it is new, handles it and sends the reply. */
    method Poll(input: CycleInput)
      requires Valid()
      modifies this
      ensures Valid()
      ensures State() == Exchange(old(State()), input, Process)
    {
      var newMessage: Option<string> := None;
      if input.polled != [] {
        var latest := input.polled[|input.polled| - 1];
        if latest !in history {
          newMessage := Some(latest);
        }
      }
      assert newMessage == Candidate(input.polled, history);
      if newMessage.Some? && newMessage.value != [] {
        var m := newMessage.value;
        var outcome := ProcessIncomingMessage(m, input.env, files);
        ExchangeNew(State(), input, Process, m);
        Deliver(m, outcome);
      }
    }

    /** The scheduled refresh: the instruction text is sent again and the history forgotten. */
    method MaybeRefresh(input: CycleInput)
      requires Valid()
      modifies this
      ensures Valid()
      ensures State() == Refresh(old(State()), input, instruction)
    {
      if cycleCount % RefreshCycle == 0 && input.refreshOk {
        var parts := SplitLongText(instruction, MaxContentLength);
        SendAll(parts);
        history := [];
      }
    }
  }

  /** A cycle is the count, then the exchange, then the refresh. */
  lemma StepComposed(s: LoopState, input: CycleInput, instruction: string, route: Route,
                     counted: LoopState, polled: LoopState, t: LoopState)
    requires counted == s.(cycleCount := s.cycleCount + 1)
    requires polled == Exchange(counted, input, route)
    requires t == Refresh(polled, input, instruction)
    ensures t == Step(s, input, instruction, route)
  {
  }

  /** A new, non-empty message on the page is routed and answered. */
  lemma ExchangeNew(s: LoopState, input: CycleInput, route: Route, m: string)
    requires Candidate(input.polled, s.history) == Some(m) && m != []
    ensures Exchange(s, input, route) == Respond(s, m, route(m, input.env, s.files))
  {
  }

  // ---------------------------------------------------------------------
  // Lemmas

  /**
   * The history is a first-in first-out buffer of at most five entries: `m`
   * goes to the back, and only when the buffer is full does the front entry
   * leave.
   */
  lemma RememberFifo(history: seq<string>, m: string)
    requires |history| <= MaxHistory
    ensures |Remember(history, m)| <= MaxHistory
    ensures |history| < MaxHistory ==> Remember(history, m) == history + [m]
    ensures |history| == MaxHistory ==> Remember(history, m) == history[1..] + [m]
    ensures m in Remember(history, m)
  {
    if |history| == MaxHistory {
      assert (history + [m])[1..] == history[1..] + [m];
    }
  }

  /** The history never grows beyond `MaxHistory` entries. */
  lemma HistoryBounded(s: LoopState, input: CycleInput, instruction: string, route: Route)
    requires |s.history| <= MaxHistory
    ensures |Step(s, input, instruction, route).history| <= MaxHistory
  {
    var c := Candidate(input.polled, s.history);
    if c.Some? {
      RememberFifo(s.history, c.value);
    }
  }

  /** Every iteration adds exactly one to the counter. */
  lemma StepCounts(s: LoopState, input: CycleInput, instruction: string, route: Route)
    ensures Step(s, input, instruction, route).cycleCount == s.cycleCount + 1
  {
  }

  /**
   * A message already in the history is not dispatched again: the files and
   * the history stay as they were and only the refresh, if due, sends
   * anything.
   */
  lemma DuplicateIgnored(s: LoopState, input: CycleInput, instruction: string, route: Route)
    requires input.polled != [] && input.polled[|input.polled| - 1] in s.history
    ensures var t := Step(s, input, instruction, route);
      t.files == s.files
      && (if RefreshDue(s.cycleCount + 1) && input.refreshOk then
            t.history == [] && t.sent == s.sent + Chunks(instruction, MaxContentLength)
          else t.history == s.history && t.sent == s.sent)
  {
  }

  /**
   * A new message is routed once; the history then ends with it even when
   * the router sends nothing back, and what is sent is the reply cut into
   * parts that reassemble into it.
   */
  lemma NewMessageHandled(s: LoopState, input: CycleInput, instruction: string, route: Route, reply: Option<string>, files: Files)
    requires |s.history| <= MaxHistory
    requires input.polled != [] && input.polled[|input.polled| - 1] !in s.history
    requires input.polled[|input.polled| - 1] != []
    requires route(input.polled[|input.polled| - 1], input.env, s.files) == Done(reply, files)
    requires !(RefreshDue(s.cycleCount + 1) && input.refreshOk)
    ensures var m := input.polled[|input.polled| - 1];
      var t := Step(s, input, instruction, route);
      && t.files == files
      && t.history == Remember(s.history, m)
      && |t.sent| >= |s.sent| && t.sent[..|s.sent|] == s.sent
      && (reply.Some? && reply.value != [] ==> Reassemble(t.sent[|s.sent|..]) == reply)
      && (reply.None? ==> t.sent == s.sent)
  {
    var m := input.polled[|input.polled| - 1];
    var t := Step(s, input, instruction, route);
    assert t == s.(cycleCount := s.cycleCount + 1, history := Remember(s.history, m), files := files, sent := s.sent + Transmit(reply));
    assert t.sent[|s.sent|..] == Transmit(reply);
    if reply.Some? && reply.value != [] {
      ReassembleChunks(reply.value, MaxContentLength);
    }
  }

  /**
   * When the handler raises (a sink that cannot be opened), the history is
   * not updated and nothing is sent, so the same message is tried again on
   * the next cycle unless a refresh intervenes.
   */
  lemma RaisedIsRetried(s: LoopState, input: CycleInput, instruction: string, route: Route)
    requires input.polled != [] && input.polled[|input.polled| - 1] !in s.history
    requires route(input.polled[|input.polled| - 1], input.env, s.files).Raised?
    requires !(RefreshDue(s.cycleCount + 1) && input.refreshOk)
    ensures var t := Step(s, input, instruction, route);
      t.history == s.history && t.files == s.files && t.sent == s.sent
      && Candidate(input.polled, t.history) == Some(input.polled[|input.polled| - 1])
  {
    var m := input.polled[|input.polled| - 1];
    if m != [] {
      StepOfNew(s, input, instruction, route);
    }
  }

  /**
   * Once handled, a message is in the history, so the same page on the next
   * cycle dispatches nothing, unless the refresh has cleared the history.
   */
  lemma HandledOnce(s: LoopState, input: CycleInput, instruction: string, route: Route)
    requires |s.history| <= MaxHistory
    requires input.polled != [] && input.polled[|input.polled| - 1] !in s.history
    requires input.polled[|input.polled| - 1] != []
    requires route(input.polled[|input.polled| - 1], input.env, s.files).Done?
    requires !(RefreshDue(s.cycleCount + 1) && input.refreshOk)
    ensures Candidate(input.polled, Step(s, input, instruction, route).history) == None
  {
    var m := input.polled[|input.polled| - 1];
    StepOfNew(s, input, instruction, route);
    RememberFifo(s.history, m);
  }

  /** Without a refresh, an iteration that finds a new message is the response to routing it. */
  lemma StepOfNew(s: LoopState, input: CycleInput, instruction: string, route: Route)
    requires input.polled != [] && input.polled[|input.polled| - 1] !in s.history
    requires input.polled[|input.polled| - 1] != []
    requires !(RefreshDue(s.cycleCount + 1) && input.refreshOk)
    ensures var m := input.polled[|input.polled| - 1];
      Step(s, input, instruction, route) == Respond(s.(cycleCount := s.cycleCount + 1), m, route(m, input.env, s.files))
  {
    var m := input.polled[|input.polled| - 1];
    var s1 := s.(cycleCount := s.cycleCount + 1);
    var t := Respond(s1, m, route(m, input.env, s.files));
    assert Candidate(input.polled, s1.history) == Some(m);
    assert Exchange(s1, input, route) == t;
    assert t.cycleCount == s1.cycleCount;
    assert Refresh(t, input, instruction) == t;
  }

  /** A successful scheduled refresh forgets the history and sends the instruction text again. */
  lemma RefreshClears(s: LoopState, input: CycleInput, instruction: string, route: Route)
    requires RefreshDue(s.cycleCount + 1) && input.refreshOk
    ensures var t := Step(s, input, instruction, route);
      t.history == [] && |t.sent| >= |Chunks(instruction, MaxContentLength)|
      && Reassemble(t.sent[|t.sent| - |Chunks(instruction, MaxContentLength)|..]) == Some(instruction)
  {
    var parts := Chunks(instruction, MaxContentLength);
    var u := Exchange(s.(cycleCount := s.cycleCount + 1), input, route);
    var t := Step(s, input, instruction, route);
    assert t == Refresh(u, input, instruction);
    assert t.sent == u.sent + parts;
    assert t.sent[|u.sent|..] == parts;
    ReassembleChunks(instruction, MaxContentLength);
  }

  /**
   * Over any run of cycles the counter advances by the number of cycles,
   * the history stays bounded and nothing already sent is taken back.
   */
  lemma {:induction false} RunInvariant(s: LoopState, inputs: seq<CycleInput>, instruction: string, route: Route)
    requires |s.history| <= MaxHistory
    ensures var t := Run(s, inputs, instruction, route);
      t.cycleCount == s.cycleCount + |inputs|
      && |t.history| <= MaxHistory
      && |t.sent| >= |s.sent| && t.sent[..|s.sent|] == s.sent
    decreases |inputs|
  {
    if inputs != [] {
      var next := Step(s, inputs[0], instruction, route);
      HistoryBounded(s, inputs[0], instruction, route);
      StepCounts(s, inputs[0], instruction, route);
      StepKeepsSent(s, inputs[0], instruction, route);
      RunInvariant(next, inputs[1..], instruction, route);
    }
  }

  /** An iteration only appends to what was sent. */
  lemma StepKeepsSent(s: LoopState, input: CycleInput, instruction: string, route: Route)
    ensures var t := Step(s, input, instruction, route);
      |t.sent| >= |s.sent| && t.sent[..|s.sent|] == s.sent
  {
  }

  /**
   * With the server's router, a reply of the server that shows up as the
   * newest message is remembered but not answered: no file changes and
   * nothing is sent, so the server does not talk to itself.
   */
  lemma OwnReplyNotAnswered(s: LoopState, input: CycleInput, instruction: string)
    requires input.polled != [] && input.polled[|input.polled| - 1] !in s.history
    requires IsReplyLine(input.polled[|input.polled| - 1])
    requires !(RefreshDue(s.cycleCount + 1) && input.refreshOk)
    ensures var m := input.polled[|input.polled| - 1];
      Step(s, input, instruction, Process)
        == s.(cycleCount := s.cycleCount + 1, history := Remember(s.history, m))
  {
    var m := input.polled[|input.polled| - 1];
    assert m != [] by {
      assert StartsWith(m, StatusLead) || StartsWith(m, ErrorLead);
    }
    StepOfNew(s, input, instruction, Process);
    OwnReplyIgnored(m, input.env, s.files);
  }

  /** Every part of a text split into several opens with the `[` of its header. */
  lemma ChunkOpensHeader(text: string, k: nat)
    requires |text| > MaxContentLength && k < |Chunks(text, MaxContentLength)|
    ensures StartsWith(Chunks(text, MaxContentLength)[k], "[")
  {
    ChunkAt(text, MaxContentLength, k);
    var h := Header(k + 1, |Chunks(text, MaxContentLength)|);
    assert h[0] == '[';
  }

  /** A message opening with `[` carries neither a prefix nor a sentinel. */
  lemma BracketIsNoPrefix(msg: string)
    requires StartsWith(msg, "[")
    ensures forall p: Prefix :: !StartsWith(msg, Literal(p))
    ensures !StartsWith(msg, StatusSentinel) && !StartsWith(msg, ErrorSentinel)
  {
    assert msg[0] == '[';
    forall p: Prefix
      ensures !StartsWith(msg, Literal(p))
    {
      FirstCharDiffers(msg, Literal(p));
    }
    FirstCharDiffers(msg, StatusSentinel);
    FirstCharDiffers(msg, ErrorSentinel);
  }

  /**
   * A part of a reply that was split, read back as a message, is answered
   * with the "unrecognised" error: its `[CZĘŚĆ i/n]` header hides the
   * sentinel the router looks for to ignore the server's own replies.
   */
  lemma ChunkedReplyAnswered(r: string, k: nat, env: Env, files: Files)
    requires |r| > MaxContentLength && k < |Chunks(r, MaxContentLength)|
    ensures Process(Chunks(r, MaxContentLength)[k], env, files) == Done(Some(UnrecognisedError), files)
  {
    var part := Chunks(r, MaxContentLength)[k];
    ChunkOpensHeader(r, k);
    StripKeepsLead(part, "[");
    BracketIsNoPrefix(Strip(part));
    ProcessWithoutPrefix(part, env, files);
  }

  /** The "unrecognised" error is short enough to go out as one part. */
  lemma UnrecognisedFits()
    ensures Transmit(Some(UnrecognisedError)) == [UnrecognisedError]
  {
    assert |UnrecognisedError| <= MaxContentLength;
  }

  /**
   * When a part of the server's own long reply is the newest message on the
   * page, the loop answers it with one "unrecognised" error line and
   * remembers it; that error line is then ignored like any other reply.
   */
  lemma OwnReplyPartAnswered(s: LoopState, input: CycleInput, instruction: string, r: string, k: nat)
    requires |r| > MaxContentLength && k < |Chunks(r, MaxContentLength)|
    requires input.polled != [] && input.polled[|input.polled| - 1] == Chunks(r, MaxContentLength)[k]
    requires input.polled[|input.polled| - 1] !in s.history
    requires !(RefreshDue(s.cycleCount + 1) && input.refreshOk)
    ensures var m := input.polled[|input.polled| - 1];
      Step(s, input, instruction, Process)
        == s.(cycleCount := s.cycleCount + 1, history := Remember(s.history, m), sent := s.sent + [UnrecognisedError])
  {
    var m := input.polled[|input.polled| - 1];
    ChunkOpensHeader(r, k);
    assert m != [];
    StepOfNew(s, input, instruction, Process);
    ChunkedReplyAnswered(r, k, input.env, s.files);
    UnrecognisedFits();
  }
}
