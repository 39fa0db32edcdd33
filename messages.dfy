/**
 Messages that travel on the pipes of the NLG hub actor.

 Both inbound pipes carry arbitrary objects: the actor discriminates them by
 their runtime type, so one closed variant type covers what can arrive.
 */
module Messages {

  /** A dialogue act chosen by the dialogue manager; opaque to the actor. */
  type DialogueAct = string

  /** Text produced by the generation engine. */
  type Text = string

  datatype Option<+T> = None | Some(value: T)

  /** What can be received from the command pipe or the dialogue-act pipe. */
  datatype InMsg =
    | Cmd(name: string)        // a `Command`, reduced to its parsed `__name__`
    | DMDA(da: DialogueAct)    // a dialogue act sent by the dialogue manager
    | Other                    // any object of another type

  /** What the actor sends. */
  datatype OutMsg =
    | NlgTextGenerated         // `Command('nlg_text_generated()', 'NLG', 'HUB')`
    | TTSText(text: Text)      // text handed to speech synthesis

  /** The two pipes the actor writes to. */
  datatype Pipe = CommandPipe | TextPipe

  /** One send, recording on which pipe it happened. */
  datatype Sent = Sent(pipe: Pipe, msg: OutMsg)

  /** The exceptions that can escape the data step. */
  datatype Fault =
    | DMException              // 'Unsupported input.'
    | NameError                // the unbound name `cfg` in the Command branch

  const StopName: string := "stop"
  const FlushName: string := "flush"
}
