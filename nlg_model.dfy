/**
 The NLG hub actor as a state machine over four FIFO pipes.

 `Pipes` is the whole observable state: what is waiting on the command pipe and
 on the dialogue-act pipe, what the actor has sent back on the command pipe and
 on the text pipe, and `sent`, the order in which those sends happened across
 both output pipes. The functions below say what one command step, one data
 step, one loop iteration and a bounded run do to that state; the class in
 module NlgActor is proved to do exactly that.
 */
module NlgModel {
  import opened Messages

  datatype Pipes = Pipes(
    commandsIn: seq<InMsg>,
    dataIn: seq<InMsg>,
    commandsOut: seq<OutMsg>,
    textOut: seq<OutMsg>,
    sent: seq<Sent>)

  lemma ConcatAssoc<T>(x: seq<T>, y: seq<T>, z: seq<T>)
    ensures (x + y) + z == x + (y + z)
  {
  }

  // ---------------------------------------------------------------------------
  // The record of sends

  /** The messages of `sent` that went out on pipe `p`, in the order sent. */
  function OnPipe(sent: seq<Sent>, p: Pipe): (r: seq<OutMsg>)
    ensures |r| <= |sent|
  {
    if sent == [] then []
    else (if sent[0].pipe == p then [sent[0].msg] else []) + OnPipe(sent[1..], p)
  }

  lemma {:induction false} OnPipeAppend(a: seq<Sent>, b: seq<Sent>, p: Pipe)
    ensures OnPipe(a + b, p) == OnPipe(a, p) + OnPipe(b, p)
  {
    if a == [] {
      assert a + b == b;
    } else {
      var head := if a[0].pipe == p then [a[0].msg] else [];
      assert (a + b)[0] == a[0];
      assert (a + b)[1..] == a[1..] + b;
      OnPipeAppend(a[1..], b, p);
      calc {
        OnPipe(a + b, p);
        head + OnPipe(a[1..] + b, p);
        head + (OnPipe(a[1..], p) + OnPipe(b, p));
        { ConcatAssoc(head, OnPipe(a[1..], p), OnPipe(b, p)); }
        (head + OnPipe(a[1..], p)) + OnPipe(b, p);
        OnPipe(a, p) + OnPipe(b, p);
      }
    }
  }

  /** The two output pipes hold exactly what the record says was sent on them. */
  predicate Consistent(q: Pipes) {
    OnPipe(q.sent, CommandPipe) == q.commandsOut && OnPipe(q.sent, TextPipe) == q.textOut
  }

  // ---------------------------------------------------------------------------
  // Command step: `process_pending_commands`

  predicate IsCommand(m: InMsg, name: string) {
    m.Cmd? && m.name == name
  }

  /**
   One call of `process_pending_commands`: the result is the new state and
   whether the actor must terminate. It tests the command pipe once (an `if`,
   not a loop), so it takes at most one message off it however many wait.
   */
  function CommandStep(q: Pipes): (r: (Pipes, bool))
    // nothing is ever sent
    ensures r.0.commandsOut == q.commandsOut && r.0.textOut == q.textOut && r.0.sent == q.sent
    // an empty command pipe changes nothing
    ensures q.commandsIn == [] ==> r == (q, false)
    // exactly the head is consumed; later commands stay pending
    ensures q.commandsIn != [] ==> r.0.commandsIn == q.commandsIn[1..]
    // terminate exactly on a pending `stop`
    ensures r.1 <==> q.commandsIn != [] && IsCommand(q.commandsIn[0], StopName)
    // the dialogue-act pipe is emptied by a `flush` and untouched otherwise
    ensures r.0.dataIn == if q.commandsIn != [] && IsCommand(q.commandsIn[0], FlushName) then [] else q.dataIn
  {
    if q.commandsIn == [] then (q, false)
    else
      var command := q.commandsIn[0];
      var q' := q.(commandsIn := q.commandsIn[1..]);
      if IsCommand(command, StopName) then (q', true)
      else if IsCommand(command, FlushName) then (q'.(dataIn := []), false)
      else (q', false)
  }

  // ---------------------------------------------------------------------------
  // Data step: `read_dialogue_act_write_text`

  /**
   The outcome of draining a dialogue-act queue: the acts rendered, in order,
   what stays queued, and the exception that stopped the drain, if any.
   */
  datatype Rendering = Rendering(acts: seq<DialogueAct>, rest: seq<InMsg>, fault: Option<Fault>)

  /**
   Drain `items` as written: every `DMDA` is rendered; a `Command` reaches the
   unbound name `cfg` and raises NameError; anything else raises DMException.
   The item that raises has been received already; the ones after it stay.
   */
  function Render(items: seq<InMsg>): (r: Rendering)
    ensures r.fault.None? ==> r.rest == [] && |r.acts| == |items|
    ensures r.fault.Some? ==> |r.acts| + 1 + |r.rest| == |items|
  {
    if items == [] then Rendering([], [], None)
    else
      match items[0]
      case DMDA(da) =>
        var r := Render(items[1..]);
        r.(acts := [da] + r.acts)
      case Cmd(_) => Rendering([], items[1..], Some(NameError))
      case Other => Rendering([], items[1..], Some(DMException))
  }

  /** The dialogue acts carried by the `DMDA` items of `items`, in order. */
  function ActsIn(items: seq<InMsg>): (r: seq<DialogueAct>)
    ensures |r| <= |items|
  {
    if items == [] then []
    else (if items[0].DMDA? then [items[0].da] else []) + ActsIn(items[1..])
  }

  lemma {:induction false} ActsInAppend(a: seq<InMsg>, b: seq<InMsg>)
    ensures ActsIn(a + b) == ActsIn(a) + ActsIn(b)
  {
    if a == [] {
      assert a + b == b;
    } else {
      var head := if a[0].DMDA? then [a[0].da] else [];
      assert (a + b)[0] == a[0];
      assert (a + b)[1..] == a[1..] + b;
      ActsInAppend(a[1..], b);
      calc {
        ActsIn(a + b);
        head + ActsIn(a[1..] + b);
        head + (ActsIn(a[1..]) + ActsIn(b));
        { ConcatAssoc(head, ActsIn(a[1..]), ActsIn(b)); }
        (head + ActsIn(a[1..])) + ActsIn(b);
        ActsIn(a) + ActsIn(b);
      }
    }
  }

  /** A queue holding only dialogue acts is drained completely and rendered in order. */
  lemma {:induction false} RenderAllActs(items: seq<InMsg>)
    requires forall i :: 0 <= i < |items| ==> items[i].DMDA?
    ensures Render(items) == Rendering(ActsIn(items), [], None)
  {
    if items != [] {
      RenderAllActs(items[1..]);
    }
  }

  /**
   Fail fast: if the first item that is not a dialogue act sits at index `k`,
   the acts before it are rendered, it raises its exception, and everything
   after it stays queued.
   */
  lemma {:induction false} RenderStopsAtFirstNonAct(items: seq<InMsg>, k: nat)
    requires k < |items| && !items[k].DMDA?
    requires forall i :: 0 <= i < k ==> items[i].DMDA?
    ensures Render(items) ==
      Rendering(ActsIn(items[..k]), items[k + 1..], Some(if items[k].Cmd? then NameError else DMException))
  {
    if k == 0 {
      assert items[..0] == [];
    } else {
      RenderStopsAtFirstNonAct(items[1..], k - 1);
      assert items[1..][..k - 1] == items[..k][1..];
      assert items[1..][k..] == items[k + 1..];
    }
  }

  /**
   The sends that rendering `acts` performs: for each act, first the
   `nlg_text_generated()` notification on the command pipe, then its text on
   the text pipe.
   */
  function Emit(acts: seq<DialogueAct>, generate: DialogueAct -> Text): (r: seq<Sent>)
    ensures |r| == 2 * |acts|
  {
    if acts == [] then []
    else [Sent(CommandPipe, NlgTextGenerated), Sent(TextPipe, TTSText(generate(acts[0])))]
         + Emit(acts[1..], generate)
  }

  /** The k-th act gives the (2k)-th send, its notification, and right after it the (2k+1)-th, its text. */
  lemma {:induction false} EmitAt(acts: seq<DialogueAct>, generate: DialogueAct -> Text, k: nat)
    requires k < |acts|
    ensures Emit(acts, generate)[2 * k] == Sent(CommandPipe, NlgTextGenerated)
    ensures Emit(acts, generate)[2 * k + 1] == Sent(TextPipe, TTSText(generate(acts[k])))
  {
    if k > 0 {
      EmitAt(acts[1..], generate, k - 1);
    }
  }

  lemma {:induction false} EmitAppend(a: seq<DialogueAct>, b: seq<DialogueAct>, generate: DialogueAct -> Text)
    ensures Emit(a + b, generate) == Emit(a, generate) + Emit(b, generate)
  {
    if a == [] {
      assert a + b == b;
    } else {
      assert (a + b)[1..] == a[1..] + b;
      EmitAppend(a[1..], b, generate);
    }
  }

  /** One notification per rendered act. */
  function Notifications(n: nat): seq<OutMsg> {
    seq(n, _ => NlgTextGenerated)
  }

  /** One text per rendered act, in the order of the acts. */
  function Texts(acts: seq<DialogueAct>, generate: DialogueAct -> Text): seq<OutMsg> {
    seq(|acts|, i requires 0 <= i < |acts| => TTSText(generate(acts[i])))
  }

  /** Sending one more notification extends the notifications of the acts rendered so far. */
  lemma NotificationsSnoc(sent: seq<OutMsg>, n: nat)
    ensures sent + Notifications(n) + [NlgTextGenerated] == sent + Notifications(n + 1)
  {
    assert Notifications(n + 1) == Notifications(n) + [NlgTextGenerated];
  }

  /** Sending the text of one more act extends the texts of the acts rendered so far. */
  lemma TextsSnoc(sent: seq<OutMsg>, acts: seq<DialogueAct>, act: DialogueAct, generate: DialogueAct -> Text)
    ensures sent + Texts(acts, generate) + [TTSText(generate(act))] == sent + Texts(acts + [act], generate)
  {
    var l, r := Texts(acts + [act], generate), Texts(acts, generate) + [TTSText(generate(act))];
    assert |l| == |r|;
    forall i | 0 <= i < |l| ensures l[i] == r[i] {
      if i < |acts| {
        assert (acts + [act])[i] == acts[i];
      }
    }
  }

  /** Rendering one more act appends its notification and then its text to the record of sends. */
  lemma EmitSnoc(sent: seq<Sent>, acts: seq<DialogueAct>, act: DialogueAct, generate: DialogueAct -> Text)
    ensures sent + Emit(acts, generate) + [Sent(CommandPipe, NlgTextGenerated), Sent(TextPipe, TTSText(generate(act)))]
         == sent + Emit(acts + [act], generate)
  {
    EmitAppend(acts, [act], generate);
    assert Emit([act], generate) == [Sent(CommandPipe, NlgTextGenerated), Sent(TextPipe, TTSText(generate(act)))];
  }

  /** Receiving a dialogue act moves it from what is queued to what is rendered. */
  lemma RenderReceivesAct(queued: seq<InMsg>, done: seq<DialogueAct>, act: DialogueAct)
    requires queued != [] && queued[0] == DMDA(act)
    ensures Render(queued).(acts := done + Render(queued).acts)
         == Render(queued[1..]).(acts := (done + [act]) + Render(queued[1..]).acts)
  {
    ConcatAssoc(done, [act], Render(queued[1..]).acts);
  }

  /** Seen from each pipe alone, rendering `acts` sends one notification per act and each act's text in order. */
  lemma {:induction false} EmitProjections(acts: seq<DialogueAct>, generate: DialogueAct -> Text)
    ensures OnPipe(Emit(acts, generate), CommandPipe) == Notifications(|acts|)
    ensures OnPipe(Emit(acts, generate), TextPipe) == Texts(acts, generate)
  {
    if acts != [] {
      var head := [Sent(CommandPipe, NlgTextGenerated), Sent(TextPipe, TTSText(generate(acts[0])))];
      EmitProjections(acts[1..], generate);
      OnPipeAppend(head, Emit(acts[1..], generate), CommandPipe);
      OnPipeAppend(head, Emit(acts[1..], generate), TextPipe);
      assert OnPipe(head, CommandPipe) == [NlgTextGenerated];
      assert OnPipe(head, TextPipe) == [TTSText(generate(acts[0]))];
      assert Notifications(|acts|) == [NlgTextGenerated] + Notifications(|acts| - 1);
      assert Texts(acts, generate) == [TTSText(generate(acts[0]))] + Texts(acts[1..], generate);
    }
  }

  /**
   One call of `read_dialogue_act_write_text`: drain the dialogue-act pipe,
   rendering each act with `generate`; the result is the new state and the
   exception that escaped, if any.
   */
  function DataStep(q: Pipes, generate: DialogueAct -> Text): (r: (Pipes, Option<Fault>))
    ensures r.0.commandsIn == q.commandsIn
    // returning normally means every queued item was a dialogue act and the pipe is drained
    ensures r.1.None? <==> forall i :: 0 <= i < |q.dataIn| ==> q.dataIn[i].DMDA?
    ensures r.1.None? ==> r.0.dataIn == []
    ensures r.1.Some? ==> |r.0.dataIn| < |q.dataIn|
  {
    var rd := Render(q.dataIn);
    RenderFailsOnNonAct(q.dataIn);
    (q.(dataIn := rd.rest,
        commandsOut := q.commandsOut + Notifications(|rd.acts|),
        textOut := q.textOut + Texts(rd.acts, generate),
        sent := q.sent + Emit(rd.acts, generate)),
     rd.fault)
  }

  /** The data step keeps each output pipe equal to what the record of sends says went out on it. */
  lemma DataStepPreservesConsistent(q: Pipes, generate: DialogueAct -> Text)
    requires Consistent(q)
    ensures Consistent(DataStep(q, generate).0)
  {
    var acts := Render(q.dataIn).acts;
    EmitProjections(acts, generate);
    OnPipeAppend(q.sent, Emit(acts, generate), CommandPipe);
    OnPipeAppend(q.sent, Emit(acts, generate), TextPipe);
  }

  /** What the data step did not receive is still queued, in its original order. */
  lemma {:induction false} RenderLeavesUnreceived(items: seq<InMsg>)
    ensures Render(items).rest == items[|items| - |Render(items).rest|..]
  {
    if items != [] && items[0].DMDA? {
      RenderLeavesUnreceived(items[1..]);
      assert items[1..][|items| - 1 - |Render(items[1..]).rest|..] == items[|items| - |Render(items[1..]).rest|..];
    }
  }

  /** The drain returns normally exactly when every queued item is a dialogue act. */
  lemma {:induction false} RenderFailsOnNonAct(items: seq<InMsg>)
    ensures Render(items).fault.None? <==> forall i :: 0 <= i < |items| ==> items[i].DMDA?
  {
    if items != [] {
      RenderFailsOnNonAct(items[1..]);
      if items[0].DMDA? && Render(items[1..]).fault.Some? {
        var i :| 0 <= i < |items[1..]| && !items[1..][i].DMDA?;
        assert !items[i + 1].DMDA?;
      }
    }
  }

  /** DataStep in terms of the drain's outcome. */
  lemma DataStepOfRendering(q: Pipes, generate: DialogueAct -> Text, acts: seq<DialogueAct>, rest: seq<InMsg>, fault: Option<Fault>)
    requires Render(q.dataIn) == Rendering(acts, rest, fault)
    ensures DataStep(q, generate) ==
      (q.(dataIn := rest,
          commandsOut := q.commandsOut + Notifications(|acts|),
          textOut := q.textOut + Texts(acts, generate),
          sent := q.sent + Emit(acts, generate)),
       fault)
    ensures Consistent(q) ==> Consistent(DataStep(q, generate).0)
  {
    if Consistent(q) {
      DataStepPreservesConsistent(q, generate);
    }
  }

  // ---------------------------------------------------------------------------
  // One iteration of `run`

  datatype StepOutcome = Continue | Stopped | Crashed(fault: Fault)

  /**
   The body of the `while 1` loop of `run`, after the sleep: the command step
   first, then, unless it asked to stop, the data step.
   */
  function Iteration(q: Pipes, generate: DialogueAct -> Text): (r: (Pipes, StepOutcome))
    ensures r.1 == Stopped <==> q.commandsIn != [] && IsCommand(q.commandsIn[0], StopName)
    // on stop the data step is skipped: no pending act is rendered
    ensures r.1 == Stopped ==>
      r.0.dataIn == q.dataIn && r.0.commandsOut == q.commandsOut && r.0.textOut == q.textOut && r.0.sent == q.sent
    ensures r.1 == Continue ==> r.0.dataIn == []
    ensures q.commandsIn != [] ==> r.0.commandsIn == q.commandsIn[1..]
    // an exception escaping the data step ends the pass with that exception
    ensures r.1 != Stopped ==> (r.1 == Continue <==> DataStep(CommandStep(q).0, generate).1.None?)
    ensures r.1.Crashed? ==> DataStep(CommandStep(q).0, generate).1 == Some(r.1.fault)
  {
    var command := CommandStep(q);
    if command.1 then (command.0, Stopped)
    else
      var data := DataStep(command.0, generate);
      (data.0, if data.1.Some? then Crashed(data.1.value) else Continue)
  }

  lemma IterationPreservesConsistent(q: Pipes, generate: DialogueAct -> Text)
    requires Consistent(q)
    ensures Consistent(Iteration(q, generate).0)
  {
    var q1 := CommandStep(q).0;
    if !CommandStep(q).1 {
      DataStepPreservesConsistent(q1, generate);
    }
  }

  /**
   A flush handled in an iteration discards every act that was pending when
   the iteration began: none of them is rendered.
   */
  lemma FlushDiscardsPending(q: Pipes, generate: DialogueAct -> Text)
    requires q.commandsIn != [] && IsCommand(q.commandsIn[0], FlushName)
    ensures Iteration(q, generate) == (q.(commandsIn := q.commandsIn[1..], dataIn := []), Continue)
  {
    assert Notifications(0) == [] && Texts([], generate) == [];
    assert q.commandsOut + [] == q.commandsOut && q.textOut + [] == q.textOut && q.sent + [] == q.sent;
  }

  /** With no command pending and only acts queued, an iteration renders them all, in order, and goes on. */
  lemma IterationRendersActs(q: Pipes, generate: DialogueAct -> Text)
    requires q.commandsIn == []
    requires forall i :: 0 <= i < |q.dataIn| ==> q.dataIn[i].DMDA?
    ensures Iteration(q, generate).1 == Continue
    ensures Iteration(q, generate).0 ==
      q.(dataIn := [],
         commandsOut := q.commandsOut + Notifications(|q.dataIn|),
         textOut := q.textOut + Texts(ActsIn(q.dataIn), generate),
         sent := q.sent + Emit(ActsIn(q.dataIn), generate))
  {
    RenderAllActs(q.dataIn);
    assert CommandStep(q) == (q, false);
  }

  // ---------------------------------------------------------------------------
  // A bounded run

  /** The messages other processes put on the two input pipes during one sleep. */
  datatype Delivery = Delivery(commands: seq<InMsg>, data: seq<InMsg>)

  /** The pipes after `d` has arrived: each delivery queues up, in order, behind what was waiting. */
  function Delivered(q: Pipes, d: Delivery): (r: Pipes)
    ensures |r.commandsIn| == |q.commandsIn| + |d.commands|
    ensures r.commandsIn[..|q.commandsIn|] == q.commandsIn && r.commandsIn[|q.commandsIn|..] == d.commands
    ensures |r.dataIn| == |q.dataIn| + |d.data|
    ensures r.dataIn[..|q.dataIn|] == q.dataIn && r.dataIn[|q.dataIn|..] == d.data
    ensures r.commandsOut == q.commandsOut && r.textOut == q.textOut && r.sent == q.sent
  {
    q.(commandsIn := q.commandsIn + d.commands, dataIn := q.dataIn + d.data)
  }

  /** `Running`: every iteration allowed ran and asked to go on; otherwise the reason `run` ended. */
  datatype RunOutcome = Running | Halted(outcome: StepOutcome)

  /**
   `run` cut to one iteration per element of `deliveries`: before iteration i
   the messages of `deliveries[i]` arrive; the loop ends on `stop` or on an
   escaping exception.
   */
  function RunFor(q: Pipes, generate: DialogueAct -> Text, deliveries: seq<Delivery>): (r: (Pipes, RunOutcome))
    ensures r.1 != Halted(Continue)
    decreases |deliveries|
  {
    if deliveries == [] then (q, Running)
    else
      var step := Iteration(Delivered(q, deliveries[0]), generate);
      if step.1 == Continue then RunFor(step.0, generate, deliveries[1..]) else (step.0, Halted(step.1))
  }

  /** A run keeps each output pipe equal to what the record of sends says went out on it. */
  lemma {:induction false} RunForPreservesConsistent(q: Pipes, generate: DialogueAct -> Text, ds: seq<Delivery>)
    requires Consistent(q)
    ensures Consistent(RunFor(q, generate, ds).0)
    decreases |ds|
  {
    if ds != [] {
      var q0 := Delivered(q, ds[0]);
      IterationPreservesConsistent(q0, generate);
      if Iteration(q0, generate).1 == Continue {
        RunForPreservesConsistent(Iteration(q0, generate).0, generate, ds[1..]);
      }
    }
  }

  /** One iteration of a run: it either goes on with the remaining deliveries or ends the run. */
  lemma RunForUnfold(q: Pipes, generate: DialogueAct -> Text, ds: seq<Delivery>)
    requires ds != []
    ensures var step := Iteration(Delivered(q, ds[0]), generate);
      RunFor(q, generate, ds) == if step.1 == Continue then RunFor(step.0, generate, ds[1..]) else (step.0, Halted(step.1))
  {
  }

  /**
   Running for `ds` and then for `more` is running for `ds + more`; once the
   loop has halted (stop or exception) nothing that arrives later is handled.
   */
  lemma {:induction false} RunForAppend(q: Pipes, generate: DialogueAct -> Text, ds: seq<Delivery>, more: seq<Delivery>)
    ensures RunFor(q, generate, ds + more) ==
      if RunFor(q, generate, ds).1 == Running then RunFor(RunFor(q, generate, ds).0, generate, more)
      else RunFor(q, generate, ds)
    decreases |ds|
  {
    if ds == [] {
      assert ds + more == more;
    } else {
      assert (ds + more)[0] == ds[0];
      assert (ds + more)[1..] == ds[1..] + more;
      var step := Iteration(Delivered(q, ds[0]), generate);
      if step.1 == Continue {
        RunForAppend(step.0, generate, ds[1..], more);
      }
    }
  }

  /** All data items of `ds`, in arrival order. */
  function AllData(ds: seq<Delivery>): seq<InMsg> {
    if ds == [] then [] else ds[0].data + AllData(ds[1..])
  }

  /**
   With no commands and only dialogue acts arriving, the run never halts and
   renders every act exactly once, in arrival order, each notification sent
   just before its text.
   */
  lemma {:induction false} RunRendersEveryAct(q: Pipes, generate: DialogueAct -> Text, ds: seq<Delivery>)
    requires q.commandsIn == [] && q.dataIn == []
    requires forall j :: 0 <= j < |ds| ==> ds[j].commands == []
    requires forall j :: 0 <= j < |ds| ==> forall i :: 0 <= i < |ds[j].data| ==> ds[j].data[i].DMDA?
    ensures RunFor(q, generate, ds).1 == Running
    ensures RunFor(q, generate, ds).0.sent == q.sent + Emit(ActsIn(AllData(ds)), generate)
    ensures RunFor(q, generate, ds).0.dataIn == []
    decreases |ds|
  {
    if ds == [] {
      assert ActsIn(AllData(ds)) == [];
      assert q.sent + Emit([], generate) == q.sent;
    } else {
      var q0 := Delivered(q, ds[0]);
      var q1 := Iteration(q0, generate).0;
      assert q1.commandsIn == [] && q1.dataIn == [] && q1.sent == q.sent + Emit(ActsIn(ds[0].data), generate)
        && Iteration(q0, generate).1 == Continue by {
        IterationRendersActs(q0, generate);
      }
      RunForUnfold(q, generate, ds);
      RunRendersEveryAct(q1, generate, ds[1..]);
      assert AllData(ds) == ds[0].data + AllData(ds[1..]);
      ActsInAppend(ds[0].data, AllData(ds[1..]));
      var a, b := ActsIn(ds[0].data), ActsIn(AllData(ds[1..]));
      EmitAppend(a, b, generate);
      calc {
        RunFor(q, generate, ds).0.sent;
        RunFor(q1, generate, ds[1..]).0.sent;
        q1.sent + Emit(b, generate);
        (q.sent + Emit(a, generate)) + Emit(b, generate);
        { ConcatAssoc(q.sent, Emit(a, generate), Emit(b, generate)); }
        q.sent + (Emit(a, generate) + Emit(b, generate));
        q.sent + Emit(a + b, generate);
        q.sent + Emit(ActsIn(AllData(ds)), generate);
      }
    }
  }

  /**
   The scenario of a flush racing a queued act: "greet" is pending when the
   flush is handled and is discarded; "ask" arrives afterwards and is rendered
   with its notification.
   */
  lemma FlushScenario(q: Pipes, generate: DialogueAct -> Text, greet: DialogueAct, ask: DialogueAct)
    requires q.commandsIn == [] && q.dataIn == []
    ensures var r := RunFor(q, generate, [Delivery([Cmd(FlushName)], [DMDA(greet)]), Delivery([], [DMDA(ask)])]);
      && r.1 == Running && r.0.dataIn == []
      && r.0.sent == q.sent + Emit([ask], generate)
      && r.0.commandsOut == q.commandsOut + [NlgTextGenerated]
      && r.0.textOut == q.textOut + [TTSText(generate(ask))]
  {
    var ds := [Delivery([Cmd(FlushName)], [DMDA(greet)]), Delivery([], [DMDA(ask)])];
    var q0 := Delivered(q, ds[0]);
    assert Iteration(q0, generate) == (q, Continue) by {
      FlushDiscardsPending(q0, generate);
      assert q0.commandsIn[1..] == [];
    }
    RunForUnfold(q, generate, ds);
    var q2 := Delivered(q, ds[1]);
    IterationRendersOneAct(q2, generate, ask);
    RunForUnfold(q, generate, ds[1..]);
    assert ds[1..][1..] == [];
  }

  lemma IterationRendersOneAct(q: Pipes, generate: DialogueAct -> Text, act: DialogueAct)
    requires q.commandsIn == [] && q.dataIn == [DMDA(act)]
    ensures Iteration(q, generate) ==
      (q.(dataIn := [],
          commandsOut := q.commandsOut + [NlgTextGenerated],
          textOut := q.textOut + [TTSText(generate(act))],
          sent := q.sent + Emit([act], generate)),
       Continue)
  {
    IterationRendersActs(q, generate);
    assert ActsIn([DMDA(act)]) == [act];
    assert Notifications(1) == [NlgTextGenerated];
    assert Texts([act], generate) == [TTSText(generate(act))];
  }

  /** One pass sends only whole pairs: each notification is followed by the text of its act. */
  lemma IterationSendsPairs(q: Pipes, generate: DialogueAct -> Text)
    ensures exists acts :: Iteration(q, generate).0.sent == q.sent + Emit(acts, generate)
  {
    var q1 := CommandStep(q).0;
    if CommandStep(q).1 {
      assert Iteration(q, generate).0.sent == q.sent + Emit([], generate);
    } else {
      var rd := Render(q1.dataIn);
      DataStepOfRendering(q1, generate, rd.acts, rd.rest, rd.fault);
      assert Iteration(q, generate).0.sent == q.sent + Emit(rd.acts, generate);
    }
  }

  /**
   Every run, whatever arrives (flush, stop, a fault), sends only whole pairs:
   the record of sends grows by the notification-then-text sends of some
   sequence of acts.
   */
  lemma {:induction false} RunSendsPairs(q: Pipes, generate: DialogueAct -> Text, ds: seq<Delivery>)
    ensures exists acts :: RunFor(q, generate, ds).0.sent == q.sent + Emit(acts, generate)
    decreases |ds|
  {
    if ds == [] {
      assert RunFor(q, generate, ds).0.sent == q.sent + Emit([], generate);
    } else {
      var q0 := Delivered(q, ds[0]);
      var step := Iteration(q0, generate);
      IterationSendsPairs(q0, generate);
      var a :| step.0.sent == q.sent + Emit(a, generate);
      if step.1 == Continue {
        RunSendsPairs(step.0, generate, ds[1..]);
        var b :| RunFor(step.0, generate, ds[1..]).0.sent == step.0.sent + Emit(b, generate);
        EmitAppend(a, b, generate);
        ConcatAssoc(q.sent, Emit(a, generate), Emit(b, generate));
        assert RunFor(q, generate, ds).0.sent == q.sent + Emit(a + b, generate);
      } else {
        assert RunFor(q, generate, ds).0.sent == q.sent + Emit(a, generate);
      }
    }
  }

  /**
   An item that is neither a dialogue act nor a Command ends the pass with
   DMException: the acts before it are rendered and sent, and the items after
   it stay queued.
   */
  lemma IterationCrashesOnBadItem(q: Pipes, generate: DialogueAct -> Text, k: nat)
    requires q.commandsIn == []
    requires k < |q.dataIn| && q.dataIn[k].Other?
    requires forall i :: 0 <= i < k ==> q.dataIn[i].DMDA?
    ensures Iteration(q, generate).1 == Crashed(DMException)
    ensures Iteration(q, generate).0.dataIn == q.dataIn[k + 1..]
    ensures Iteration(q, generate).0.sent == q.sent + Emit(ActsIn(q.dataIn[..k]), generate)
  {
    assert CommandStep(q) == (q, false);
    RenderStopsAtFirstNonAct(q.dataIn, k);
  }

  /** Input the actor does not support is fatal: the run ends with DMException and nothing later is handled. */
  lemma BadInputScenario(q: Pipes, generate: DialogueAct -> Text, later: seq<Delivery>)
    requires q.commandsIn == [] && q.dataIn == []
    ensures var r := RunFor(q, generate, [Delivery([], [Other])] + later);
      && r.1 == Halted(Crashed(DMException)) && r.0.dataIn == []
      && r.0.sent == q.sent && r.0.commandsOut == q.commandsOut && r.0.textOut == q.textOut
  {
    RunForAppend(q, generate, [Delivery([], [Other])], later);
  }

  /** A `stop` that arrives with a pending act ends the run; the act is never rendered and nothing is sent. */
  lemma StopScenario(q: Pipes, generate: DialogueAct -> Text, act: DialogueAct, later: seq<Delivery>)
    requires q.commandsIn == [] && q.dataIn == []
    ensures var r := RunFor(q, generate, [Delivery([Cmd(StopName)], [DMDA(act)])] + later);
      && r.1 == Halted(Stopped) && r.0.dataIn == [DMDA(act)]
      && r.0.sent == q.sent && r.0.commandsOut == q.commandsOut && r.0.textOut == q.textOut
  {
    RunForAppend(q, generate, [Delivery([Cmd(StopName)], [DMDA(act)])], later);
  }

  // ---------------------------------------------------------------------------
  // The command step, as its documentation says: all pending commands

  /**
   `process_pending_commands` with a loop instead of its single test and
   without the early `return False` after a flush, so that it handles every
   pending command, as its docstring and the comment in `run` say: it ends at
   the first `stop`, and otherwise empties the pipe.
   */
  function CommandStepAll(q: Pipes): (r: (Pipes, bool))
    ensures r.0.commandsOut == q.commandsOut && r.0.textOut == q.textOut && r.0.sent == q.sent
    decreases |q.commandsIn|
  {
    if q.commandsIn == [] then (q, false)
    else
      var one := CommandStep(q);
      if one.1 then one else CommandStepAll(one.0)
  }

  /** Handling all pending commands terminates exactly when a `stop` is among them, and otherwise leaves none. */
  lemma {:induction false} CommandStepAllSeesEveryStop(q: Pipes)
    ensures CommandStepAll(q).1 <==> exists i :: 0 <= i < |q.commandsIn| && IsCommand(q.commandsIn[i], StopName)
    ensures !CommandStepAll(q).1 ==> CommandStepAll(q).0.commandsIn == []
    decreases |q.commandsIn|
  {
    if q.commandsIn != [] && !CommandStep(q).1 {
      var q1 := CommandStep(q).0;
      CommandStepAllSeesEveryStop(q1);
      if exists i :: 0 <= i < |q.commandsIn| && IsCommand(q.commandsIn[i], StopName) {
        var i :| 0 <= i < |q.commandsIn| && IsCommand(q.commandsIn[i], StopName);
        assert IsCommand(q1.commandsIn[i - 1], StopName);
      }
      if exists j :: 0 <= j < |q1.commandsIn| && IsCommand(q1.commandsIn[j], StopName) {
        var j :| 0 <= j < |q1.commandsIn| && IsCommand(q1.commandsIn[j], StopName);
        assert IsCommand(q.commandsIn[j + 1], StopName);
      }
    }
  }

  /** Some command among the first `k` of `cmds` is `flush`. */
  predicate FlushAmong(cmds: seq<InMsg>, k: nat) {
    exists j :: 0 <= j < k && j < |cmds| && IsCommand(cmds[j], FlushName)
  }

  lemma FlushAmongTail(cmds: seq<InMsg>, k: nat)
    requires 0 < k <= |cmds|
    ensures FlushAmong(cmds, k) <==> IsCommand(cmds[0], FlushName) || FlushAmong(cmds[1..], k - 1)
  {
    if FlushAmong(cmds, k) && !IsCommand(cmds[0], FlushName) {
      var j :| 0 <= j < k && j < |cmds| && IsCommand(cmds[j], FlushName);
      assert IsCommand(cmds[1..][j - 1], FlushName);
    }
    if FlushAmong(cmds[1..], k - 1) {
      var j :| 0 <= j < k - 1 && j < |cmds[1..]| && IsCommand(cmds[1..][j], FlushName);
      assert IsCommand(cmds[j + 1], FlushName);
    }
  }

  /**
   With the first `stop` at index `k`, handling all pending commands stops
   there: the commands behind it stay queued, and the dialogue-act queue is
   emptied exactly when a `flush` came before it.
   */
  lemma {:induction false} CommandStepAllAtFirstStop(q: Pipes, k: nat)
    requires k < |q.commandsIn| && IsCommand(q.commandsIn[k], StopName)
    requires forall i :: 0 <= i < k ==> !IsCommand(q.commandsIn[i], StopName)
    ensures CommandStepAll(q).1
    ensures CommandStepAll(q).0.commandsIn == q.commandsIn[k + 1..]
    ensures CommandStepAll(q).0.dataIn == if FlushAmong(q.commandsIn, k) then [] else q.dataIn
    decreases k
  {
    if k > 0 {
      var q1 := CommandStep(q).0;
      assert q1.commandsIn == q.commandsIn[1..];
      CommandStepAllAtFirstStop(q1, k - 1);
      assert q1.commandsIn[k..] == q.commandsIn[k + 1..];
      FlushAmongTail(q.commandsIn, k);
    }
  }

  /**
   With no `stop` pending, handling all pending commands empties the command
   queue, and empties the dialogue-act queue exactly when one of them is `flush`.
   */
  lemma {:induction false} CommandStepAllWithoutStop(q: Pipes)
    requires forall i :: 0 <= i < |q.commandsIn| ==> !IsCommand(q.commandsIn[i], StopName)
    ensures !CommandStepAll(q).1 && CommandStepAll(q).0.commandsIn == []
    ensures CommandStepAll(q).0.dataIn == if FlushAmong(q.commandsIn, |q.commandsIn|) then [] else q.dataIn
    decreases |q.commandsIn|
  {
    if q.commandsIn != [] {
      var q1 := CommandStep(q).0;
      assert q1.commandsIn == q.commandsIn[1..];
      CommandStepAllWithoutStop(q1);
      FlushAmongTail(q.commandsIn, |q.commandsIn|);
    }
  }

  /**
   As written, a `stop` queued behind another command does not stop the
   iteration: the acts pending are rendered and sent first, and the `stop`
   waits for the next iteration. Handling all pending commands would stop.
   */
  lemma PendingStopDoesNotBlockRendering(q: Pipes, generate: DialogueAct -> Text, act: DialogueAct)
    requires q.commandsIn == [Cmd("hello"), Cmd(StopName)] && q.dataIn == [DMDA(act)]
    ensures Iteration(q, generate).1 == Continue
    ensures Iteration(q, generate).0.commandsIn == [Cmd(StopName)]
    ensures Iteration(q, generate).0.textOut == q.textOut + [TTSText(generate(act))]
    ensures CommandStepAll(q).1
  {
    var q1 := CommandStep(q).0;
    assert q1 == q.(commandsIn := [Cmd(StopName)]);
    assert Render(q1.dataIn) == Rendering([act], [], None);
    assert Texts([act], generate) == [TTSText(generate(act))];
    assert CommandStepAll(q1).1;
  }

  // ---------------------------------------------------------------------------
  // The Command branch of the data step, as evidently intended

  /**
   Drain `items` with a `Command` logged and skipped, as line 90 of the
   source evidently means to do; only a non-`Command`, non-`DMDA` item raises.
   */
  function RenderIntended(items: seq<InMsg>): (r: Rendering)
    ensures r.fault != Some(NameError)
    ensures r.fault.None? ==> r.rest == []
  {
    if items == [] then Rendering([], [], None)
    else
      match items[0]
      case DMDA(da) =>
        var r := RenderIntended(items[1..]);
        r.(acts := [da] + r.acts)
      case Cmd(_) => RenderIntended(items[1..])
      case Other => Rendering([], items[1..], Some(DMException))
  }

  /** With the fix, a queue of acts and commands is drained completely and every act is rendered in order. */
  lemma {:induction false} RenderIntendedSkipsCommands(items: seq<InMsg>)
    requires forall i :: 0 <= i < |items| ==> !items[i].Other?
    ensures RenderIntended(items) == Rendering(ActsIn(items), [], None)
  {
    if items != [] {
      RenderIntendedSkipsCommands(items[1..]);
    }
  }

  /** With the fix, the two drains agree on every queue that holds no `Command`. */
  lemma {:induction false} RenderIntendedAgreesWithoutCommands(items: seq<InMsg>)
    requires forall i :: 0 <= i < |items| ==> !items[i].Cmd?
    ensures RenderIntended(items) == Render(items)
  {
    if items != [] {
      RenderIntendedAgreesWithoutCommands(items[1..]);
    }
  }

  /**
   As written, a `Command` on the dialogue-act pipe raises NameError: the act
   queued behind it is never rendered, although the fixed drain renders it.
   */
  lemma CommandOnDataPipeRaisesNameError(first: DialogueAct, second: DialogueAct)
    ensures Render([DMDA(first), Cmd("hangup"), DMDA(second)]) == Rendering([first], [DMDA(second)], Some(NameError))
    ensures RenderIntended([DMDA(first), Cmd("hangup"), DMDA(second)]) == Rendering([first, second], [], None)
  {
    assert [DMDA(first), Cmd("hangup"), DMDA(second)][1..] == [Cmd("hangup"), DMDA(second)];
    assert [Cmd("hangup"), DMDA(second)][1..] == [DMDA(second)];
    assert [DMDA(second)][1..] == [];
    assert RenderIntended([DMDA(second)]) == Rendering([second], [], None);
  }
}
