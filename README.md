# NLG hub actor — a verified Dafny model

This project models the NLG component of the Alex dialogue-system hub
(`alex/components/hub/nlg.py`). The actor runs in its own process between
three pipes:

- a duplex command pipe to the hub: `stop()` and `flush()` commands come in,
  and `nlg_text_generated()` notifications go out;
- `dialogue_act_in`, on which the dialogue manager sends dialogue acts (`DMDA`);
- `text_out`, on which rendered text (`TTSText`) goes to speech synthesis.

Its `run` loop sleeps and then does two things. `process_pending_commands`
handles at most one pending command. If no stop was seen,
`read_dialogue_act_write_text` drains the dialogue-act pipe and turns each act
into text with the generation engine.

The model has three modules:

- `Messages` (messages.dfy): what travels on the pipes. `InMsg` is
  `Cmd(name) | DMDA(da) | Other`. `OutMsg` is `NlgTextGenerated | TTSText(text)`.
  `Fault` lists the exceptions that can escape the data step.
- `NlgModel` (nlg_model.dfy): the behaviour as functions on a value `Pipes`.
  `Pipes` holds the four FIFO queues (commands in, dialogue acts in, commands
  out, text out) and `sent`. `sent` is the record of every send, in order,
  across both output pipes. It is what makes "notification before text"
  something the model can state. `CommandStep`, `DataStep`, `Iteration` and
  `RunFor` give one command step, one data step, one loop pass and a bounded
  run. The lemmas state what the source promises about them.
- `NlgActor` (nlg_actor.dfy): class `Nlg`, whose fields are the four queues
  plus the ghost record `sent`. Its methods follow the source's loops:
  `poll()` is "not empty", `recv()` takes the head and `send` appends. Each
  method is proved to change the fields exactly as the matching `NlgModel`
  function says.

`run` never ends on its own (`while 1`). `RunFor` and `Nlg.Run` therefore run
one iteration per element of a sequence of `Delivery` values. A delivery holds
the messages other processes put on the two input pipes during that
iteration's sleep. The loop ends early on `stop` or on an escaping exception.

Two quirks of the code are kept as written:

- The docstring of `process_pending_commands` says it processes all pending
  commands. The code tests the pipe with `if`, not `while` (line 47), so one
  call consumes at most one command. `CommandStep` consumes exactly the head
  command, and the rest stay queued. A `stop` behind another command
  therefore lets the pending acts be rendered first. See "## Findings".
- A command on the dialogue-act pipe is evidently meant to be logged. The code
  refers to the unbound name `cfg` instead of `self.cfg` (line 90), so it
  raises `NameError`. The actor model returns `NameError` there, as a fault
  distinct from `DMException`. See "## Findings".

## Model

| member | source | states |
|---|---|---|
| NlgActor.Nlg.constructor | alex/components/hub/nlg.py:25-34 | The actor starts with the given input queues, empty outputs and no sends, and the output pipes agree with the record of sends. The generator is fixed for the actor's lifetime. |
| NlgActor.Nlg.Deliver | alex/components/hub/nlg.py:98 | Messages that other processes send during the sleep are appended to the two input queues. Nothing else changes, so the output pipes stay consistent with the record of sends. |
| NlgModel.CommandStep | alex/components/hub/nlg.py:47-66 | An empty command pipe leaves every queue unchanged and returns False. Otherwise exactly the head command is consumed, and later commands stay queued. True is returned exactly when the head is the `stop` Command. The dialogue-act queue becomes empty exactly when the head is the `flush` Command, and is otherwise untouched. A non-Command message or an unknown name changes nothing else. Nothing is ever sent. |
| NlgActor.Nlg.ProcessPendingCommands | alex/components/hub/nlg.py:47-66 | The method, including its `while poll(): recv()` flush loop, changes the four queues and returns the result exactly as `CommandStep` says. It keeps the output pipes consistent with the record of sends. |
| NlgModel.Render | alex/components/hub/nlg.py:69-92 | Draining a queue accounts for every item. On a normal return every item was rendered and nothing is left. On a fault, the acts rendered, the one failing item and the items left add up to the queue. |
| NlgModel.RenderAllActs | alex/components/hub/nlg.py:69-73 | A queue of dialogue acts only is drained completely, without a fault, and its acts are rendered in queue order. |
| NlgModel.RenderStopsAtFirstNonAct | alex/components/hub/nlg.py:69-92 | Fail fast: if the first item that is not a `DMDA` is at index k, exactly the acts before it are rendered. It raises NameError if it is a Command and DMException otherwise. Every item after it stays queued. |
| NlgModel.RenderFailsOnNonAct | alex/components/hub/nlg.py:72-92 | The drain returns normally if and only if every queued item is a dialogue act. |
| NlgModel.RenderLeavesUnreceived | alex/components/hub/nlg.py:69-70 | What the drain leaves queued is a suffix of the queue, in its original order. |
| NlgModel.Emit | alex/components/hub/nlg.py:87-88 | Rendering n acts performs exactly 2n sends. |
| NlgModel.EmitAt | alex/components/hub/nlg.py:87-88 | For the k-th rendered act, send 2k is the `nlg_text_generated()` notification on the command pipe. Send 2k+1, right after it, is `TTSText(generate(da))` on the text pipe. |
| NlgModel.EmitProjections | alex/components/hub/nlg.py:87-88 | Each pipe on its own receives one notification per rendered act on the command pipe, and the acts' texts in act order on the text pipe. |
| NlgModel.DataStep | alex/components/hub/nlg.py:68-92 | The command-in queue is untouched. The data step returns without an exception if and only if every queued item is a dialogue act. In that case the dialogue-act queue is empty. After an exception, at least one item has been consumed. |
| NlgModel.DataStepPreservesConsistent | alex/components/hub/nlg.py:87-88 | After the data step, each output queue still holds exactly what the record of sends says went out on it. |
| NlgActor.Nlg.ReadDialogueActWriteText | alex/components/hub/nlg.py:68-92 | The `while poll()` loop changes the queues and the record of sends, and returns the escaping exception, exactly as `DataStep` says. It keeps the output pipes consistent with the record of sends. |
| NlgModel.Iteration | alex/components/hub/nlg.py:97-105 | The command step comes first. The pass stops exactly when the head command is `stop`, and then the data step is skipped. The pending acts stay queued, and nothing is sent. A pass that goes on has drained the dialogue-act queue. The head command is always consumed. Otherwise the pass goes on exactly when the data step returns without an exception, and an escaping exception ends the pass as `Crashed` with that exception. |
| NlgModel.IterationPreservesConsistent | alex/components/hub/nlg.py:97-105 | A loop pass keeps every output queue equal to what the record of sends says went out on it. |
| NlgModel.FlushDiscardsPending | alex/components/hub/nlg.py:56-59 | A pass that handles `flush` discards every act pending at its start: nothing is rendered or sent, and the pass goes on. |
| NlgModel.IterationRendersActs | alex/components/hub/nlg.py:100-105 | With no command pending and only acts queued, a pass renders all of them in order. It sends one notification then one text for each act and goes on. |
| NlgActor.Nlg.Step | alex/components/hub/nlg.py:100-105 | The method runs the command step, returns on stop, and otherwise runs the data step, exactly as `Iteration` says. It keeps the output pipes consistent with the record of sends. |
| NlgModel.Delivered | alex/components/hub/nlg.py:98 | Arriving messages are queued behind what was already waiting: each input queue keeps its old contents as a prefix, followed by exactly the delivered messages in delivery order. The outputs and the record of sends do not change. |
| NlgModel.RunFor | alex/components/hub/nlg.py:97-105 | A run ends either with every allowed pass done or halted by a stop or an exception, never halted on a pass that asked to go on. |
| NlgModel.RunForPreservesConsistent | alex/components/hub/nlg.py:97-105 | A run keeps every output queue equal to what the record of sends says went out on it. |
| NlgModel.RunForAppend | alex/components/hub/nlg.py:97-105 | Running for `ds` and then `more` is the same as running for `ds + more`. Once the loop has halted on stop or an exception, nothing that arrives later is ever handled. |
| NlgModel.RunRendersEveryAct | alex/components/hub/nlg.py:97-105 | With no commands and only dialogue acts arriving, the run never halts and leaves nothing queued. Its sends are exactly those for every arrived act, once each, in arrival order, each notification followed by its text. |
| NlgModel.IterationSendsPairs | alex/components/hub/nlg.py:87-88 | Any pass, whether it stops, flushes, renders or raises, adds to the record of sends only whole notification-then-text pairs for some acts. |
| NlgModel.RunSendsPairs | alex/components/hub/nlg.py:87-88 | Any run, whatever arrives, grows the record of sends only by notification-then-text pairs: no text is ever sent without its notification right before it. |
| NlgModel.FlushScenario | alex/components/hub/nlg.py:56-59 | An act still queued when `flush` is handled is discarded. An act that arrives afterwards is rendered, with one notification and one text. |
| NlgModel.IterationCrashesOnBadItem | alex/components/hub/nlg.py:91-92 | With no command pending, an unsupported item at the first non-act index k ends the pass with DMException. The acts before it are rendered and sent, and the items after it stay queued. |
| NlgModel.BadInputScenario | alex/components/hub/nlg.py:91-92 | Unsupported input is fatal: the run halts with DMException, nothing is sent, and later arrivals are never handled. |
| NlgModel.StopScenario | alex/components/hub/nlg.py:101-102 | A `stop` that arrives together with a dialogue act halts the run. The act stays queued and is never rendered, nothing is sent on either output pipe, and later arrivals are never handled. |
| NlgActor.Nlg.Run | alex/components/hub/nlg.py:97-105 | The loop changes the queues and returns how it ended, exactly as `RunFor` says, and keeps the output pipes consistent with the record of sends. |
| NlgModel.PendingStopDoesNotBlockRendering | alex/components/hub/nlg.py:47-66 | As written, with commands `hello` then `stop` pending and one act queued, a pass does not stop: the act is rendered and sent and `stop` stays queued for the next pass. Handling all pending commands would stop. |
| NlgModel.CommandStepAll | alex/components/hub/nlg.py:36-66 | The documented command step handles pending commands one after another, going on past a `flush`, until the first `stop`. It never sends anything. The lemmas below state what it does to the queues. |
| NlgModel.CommandStepAllAtFirstStop | alex/components/hub/nlg.py:36-66 | With the first `stop` at index k, the documented command step stops there. The commands behind it stay queued, and the dialogue-act queue is emptied exactly when a `flush` came before it. |
| NlgModel.CommandStepAllWithoutStop | alex/components/hub/nlg.py:36-66 | With no `stop` pending, the documented command step handles every command and goes on. It empties the dialogue-act queue exactly when one of the commands is `flush`. |
| NlgModel.CommandStepAllSeesEveryStop | alex/components/hub/nlg.py:36-37 | Handling all pending commands, as documented, terminates exactly when some pending command is `stop`. Otherwise no command is left queued. |
| NlgModel.CommandOnDataPipeRaisesNameError | alex/components/hub/nlg.py:89-90 | As written, the queue [act, Command, act] renders only the first act and raises NameError, and the second act stays unrendered. The corrected drain renders both acts and returns normally. |
| NlgModel.RenderIntended | alex/components/hub/nlg.py:89-90 | The corrected drain logs and skips a Command, so it never raises NameError. Returning normally leaves nothing queued. |
| NlgModel.RenderIntendedSkipsCommands | alex/components/hub/nlg.py:69-90 | With the correction, a queue of acts and Commands is drained completely, and every act is rendered in order. |
| NlgModel.RenderIntendedAgreesWithoutCommands | alex/components/hub/nlg.py:69-92 | On a queue without a Command, the corrected drain and the drain as written give the same result. |

## Findings

| source | as written | input that shows it | evidently intended | confidence | as-written member | corrected member |
|---|---|---|---|---|---|---|
| alex/components/hub/nlg.py:90 | A `Command` on the dialogue-act pipe evaluates the bare name `cfg`, which is not bound in that scope, so `NameError` escapes and ends the actor. | the dialogue-act queue `[DMDA(a), Command('hangup()'), DMDA(b)]` | `self.cfg`: log the Command and go on draining, so `b` is rendered | high (not executed) | NlgModel.CommandOnDataPipeRaisesNameError | NlgModel.RenderIntendedSkipsCommands |
| alex/components/hub/nlg.py:47 | The docstring (line 37) and the comment in `run` (line 100) say "process all pending commands", but the pipe is tested with `if`, so one command is handled per pass. A `stop` queued behind another command does not stop the pass, and pending acts are rendered first. | command pipe `[Command('hello()'), Command('stop()')]`, dialogue-act queue `[DMDA(a)]` | `while self.commands.poll()`, with the `return False` at line 64 removed: handle every pending command and stop on the first `stop` | medium (not executed) | NlgModel.PendingStopDoesNotBlockRendering | NlgModel.CommandStepAllSeesEveryStop |

The actor model (`CommandStep`, `Render`, `DataStep` and the methods of
`Nlg`) keeps the code's behaviour, because that is what the program does.
`RenderIntended` is the corrected drain. `RenderIntendedAgreesWithoutCommands`
shows that the two differ only when a Command is on the dialogue-act pipe.
`CommandStepAll` is the corrected command step, which handles every pending
command.

## Left out

- Process plumbing: the `multiprocessing.Process` base class, process start-up
  and `set_proc_name`. These are OS concerns with no effect on the pipes.
- `time.sleep(main_loop_sleep_time)`: this is timing only. The sleep is where
  `Nlg.Deliver` lets other processes' messages arrive.
- The unbounded `while 1` of `run`: it is bounded by the number of
  deliveries. Each element of the delivery sequence is one pass.
- Messages arriving mid-drain: messages arrive only during the sleep, between
  passes. The model therefore cannot show a `while poll()` drain (the flush
  loop or the data loop) taking messages that arrive while it runs, nor a
  data drain that never ends under steady input.
- `get_nlg_type` / `nlg_factory` and the generation engines. The engine is
  the total function `generate`, fixed at construction. A `generate` call that
  fails or never returns is not modelled.
- All logging (`system_logger`, `session_logger.text`, the debug text block).
  These are side effects on external sinks.
- The internals of `Command`, `DMDA`, `TTSText` and `DMException`, which live
  in modules that are not part of this model. A Command is reduced to its
  parsed name, and the outbound notification to one constant message.
- Real pipe semantics: cross-process delivery, blocking and races between
  `poll` and `recv`. Each pipe is a FIFO sequence.
