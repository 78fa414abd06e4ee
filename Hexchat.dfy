/** What the handlers of src/lib.rs see of the HexChat client and what they
    hand back to it. The client calls are not modelled: their answers
    arrive as fields of `Host`, and their effects are listed as `Effect`
    values in the order the handler performs them. */
module Hexchat {
  import opened Wrappers

  /** The value a hook returns to the client: `Eat::None` lets the command
      or event go on to other hooks and the client, `Eat::All` consumes it. */
  datatype Eat = EatNone | EatAll

  /** The client as a handler finds it: `get_info("network")` and
      `get_info("channel")`; `strip` with both strip flags (the removal of
      colour and attribute codes); and whether `find_context` still finds
      the context when the deferred callback runs on the client's thread. */
  datatype Host = Host(
    network: Option<string>,
    channel: Option<string>,
    strip: string -> string,
    contextOpen: bool)

  /** One visible effect: a line printed in the current window
      (`hc.print`), or, in the context found again by `find_context`, a
      line printed (`ctx.print`), a command run (`ctx.command`) or a text
      event emitted with its arguments (`ctx.emit_print`). */
  datatype Effect =
    | Print(text: string)
    | ContextPrint(text: string)
    | ContextCommand(text: string)
    | EmitPrint(event: string, args: seq<string>)

  /** What a hook does: the value it returns, and the effects it causes,
      both those it performs at once and those of the callback it
      schedules. */
  datatype Reaction = Reaction(eat: Eat, effects: seq<Effect>)
}
