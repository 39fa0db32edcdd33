/**
 The NLG hub actor: a process that sits between a command pipe and two data
 pipes, turning each dialogue act it receives into text.

 Each pipe is a FIFO sequence: `poll()` is "the sequence is not empty",
 `recv()` takes its head and `send(m)` appends to it. The generation engine is
 the function `generate`, fixed when the actor is built. Every method is
 proved to change the pipes exactly as the matching function of NlgModel says.
 */
module NlgActor {
  import opened Messages
  import opened NlgModel

  class Nlg {
    const generate: DialogueAct -> Text

    var commandsIn: seq<InMsg>     // the command pipe, receiving side
    var dataIn: seq<InMsg>         // `dialogue_act_in`
    var commandsOut: seq<OutMsg>   // the command pipe, sending side
    var textOut: seq<OutMsg>       // `text_out`

    /** Every send on `commandsOut` and `textOut`, in the order it happened. */
    ghost var sent: seq<Sent>

    ghost function State(): Pipes
      reads this
    {
      Pipes(commandsIn, dataIn, commandsOut, textOut, sent)
    }

    ghost predicate Valid()
      reads this
    {
      Consistent(State())
    }

    constructor (generate: DialogueAct -> Text, commandsIn: seq<InMsg>, dataIn: seq<InMsg>)
      ensures Valid() && this.generate == generate
      ensures State() == Pipes(commandsIn, dataIn, [], [], [])
    {
      this.generate := generate;
      this.commandsIn := commandsIn;
      this.dataIn := dataIn;
      commandsOut := [];
      textOut := [];
      sent := [];
    }

    /** Other processes put `d` on the two input pipes (while the actor sleeps). */
    method Deliver(d: Delivery)
      modifies this
      ensures State() == Delivered(old(State()), d)
      ensures old(Valid()) ==> Valid()
    {
      commandsIn := commandsIn + d.commands;
      dataIn := dataIn + d.data;
    }

    /**
     `process_pending_commands`: handle at most one pending command and
     report whether the actor must terminate.
     */
    method ProcessPendingCommands() returns (stop: bool)
      modifies this
      ensures (State(), stop) == CommandStep(old(State()))
      ensures old(Valid()) ==> Valid()
    {
      if commandsIn != [] {
        var command := commandsIn[0];
        commandsIn := commandsIn[1..];
        if command.Cmd? {
          if command.name == StopName {
            return true;
          }
          if command.name == FlushName {
            while dataIn != []
              invariant commandsIn == old(commandsIn)[1..]
              invariant commandsOut == old(commandsOut) && textOut == old(textOut) && sent == old(sent)
              decreases |dataIn|
            {
              dataIn := dataIn[1..];
            }
            return false;
          }
        }
      }
      return false;
    }

    /**
     `read_dialogue_act_write_text`: drain the dialogue-act pipe. The result
     is the exception that escaped, or None when the pipe was drained.
     */
    method ReadDialogueActWriteText() returns (fault: Option<Fault>)
      modifies this
      ensures (State(), fault) == DataStep(old(State()), generate)
      ensures old(Valid()) ==> Valid()
    {
      ghost var start := State();
      ghost var done: seq<DialogueAct> := [];
      fault := None;
      while dataIn != []
        invariant commandsIn == start.commandsIn
        invariant Render(start.dataIn) == Render(dataIn).(acts := done + Render(dataIn).acts)
        invariant commandsOut == start.commandsOut + Notifications(|done|)
        invariant textOut == start.textOut + Texts(done, generate)
        invariant sent == start.sent + Emit(done, generate)
        decreases |dataIn|
      {
        ghost var queued := dataIn;
        var item := dataIn[0];
        dataIn := dataIn[1..];
        if item.DMDA? {
          var text := generate(item.da);
          commandsOut := commandsOut + [NlgTextGenerated];
          textOut := textOut + [TTSText(text)];
          sent := sent + [Sent(CommandPipe, NlgTextGenerated), Sent(TextPipe, TTSText(text))];
          RenderReceivesAct(queued, done, item.da);
          NotificationsSnoc(start.commandsOut, |done|);
          TextsSnoc(start.textOut, done, item.da, generate);
          EmitSnoc(start.sent, done, item.da, generate);
          done := done + [item.da];
        } else {
          // a Command reaches the unbound name `cfg`; anything else is unsupported
          fault := Some(if item.Cmd? then NameError else DMException);
          assert Render(start.dataIn) == Rendering(done, dataIn, fault) by {
            assert Render(queued) == Rendering([], dataIn, fault);
            assert done + [] == done;
          }
          break;
        }
      }
      DataStepOfRendering(start, generate, done, dataIn, fault);
    }

    /** One pass of the body of `run` after its sleep. */
    method Step() returns (outcome: StepOutcome)
      modifies this
      ensures (State(), outcome) == Iteration(old(State()), generate)
      ensures old(Valid()) ==> Valid()
    {
      var stop := ProcessPendingCommands();
      if stop {
        return Stopped;
      }
      var fault := ReadDialogueActWriteText();
      outcome := if fault.Some? then Crashed(fault.value) else Continue;
    }

    /**
     `run`, for as many iterations as there are deliveries: before each
     iteration, the messages of the next delivery arrive.
     */
    method Run(deliveries: seq<Delivery>) returns (outcome: RunOutcome)
      modifies this
      ensures (State(), outcome) == RunFor(old(State()), generate, deliveries)
      ensures old(Valid()) ==> Valid()
    {
      ghost var start := State();
      var i := 0;
      while i < |deliveries|
        invariant 0 <= i <= |deliveries|
        invariant Consistent(start) ==> Valid()
        invariant RunFor(start, generate, deliveries) == RunFor(State(), generate, deliveries[i..])
      {
        ghost var before := State();
        RunForUnfold(before, generate, deliveries[i..]);
        assert deliveries[i..][0] == deliveries[i] && deliveries[i..][1..] == deliveries[i + 1..];
        Deliver(deliveries[i]);  // the messages that arrive while the actor sleeps
        var o := Step();
        assert (State(), o) == Iteration(Delivered(before, deliveries[i]), generate);
        if o != Continue {
          return Halted(o);
        }
        i := i + 1;
      }
      assert deliveries[i..] == [];
      return Running;
    }
  }
}
