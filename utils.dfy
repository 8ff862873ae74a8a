/** Shared logging and notification helpers of the PDF components (lwc/utils/utils.js).
    Console output and dispatched events are returned as values; the component that
    calls a helper appends the value to its own trace. */
module Utils {

  datatype Option<+T> = None | Some(value: T)

  /** The three console methods the helpers write to. */
  datatype Channel = ConsoleLog | ConsoleWarn | ConsoleError

  /** One console line written by LogMessage: console.<channel>(`${tag}: ${message}`, ...args).
      The message type is left to the caller. */
  datatype ConsoleLine<M> = ConsoleLine(channel: Channel, tag: string, message: M, args: seq<string>)

  /** A direct console.<channel>(text, ...args) call, written without the logMessage filter
      or prefix; the text type is left to the caller. */
  datatype ConsoleWrite<M> = ConsoleWrite(channel: Channel, text: M, args: seq<string>)

  /** The level argument of logMessage. The three names the helper recognises are constructors
      of their own; any other string is kept as it is. Levels are built from their names by
      LevelOf only, so an OtherLevel never carries one of the three recognised names. */
  datatype Level = InfoLevel | WarningLevel | ErrorLevel | OtherLevel(name: string)

  /** The level a name passed to logMessage stands for. */
  function LevelOf(name: string): (l: Level)
    ensures name == "info" <==> l == InfoLevel
    ensures name == "warning" <==> l == WarningLevel
    ensures name == "error" <==> l == ErrorLevel
    ensures l.OtherLevel? ==> l.name == name
  {
    if name == "info" then InfoLevel
    else if name == "warning" then WarningLevel
    else if name == "error" then ErrorLevel
    else OtherLevel(name)
  }

  /** The levels a caller may pass to LogMessage and see written. */
  const RecognisedLevels: set<Level> := {InfoLevel, WarningLevel, ErrorLevel}

  /** The levels that are written at a given debug level, as the debugLevel
      documentation states them: 1 errors only, 2 info and warnings, 3 everything,
      anything else nothing. */
  function EmittedLevels(debugLevel: int): (levels: set<Level>)
    ensures levels <= RecognisedLevels
  {
    if debugLevel == 1 then {ErrorLevel}
    else if debugLevel == 2 then {InfoLevel, WarningLevel}
    else if debugLevel == 3 then RecognisedLevels
    else {}
  }

  /** The console method used for a recognised level. */
  function ChannelOf(level: Level): Channel
    requires level in RecognisedLevels
  {
    match level
    case InfoLevel => ConsoleLog
    case WarningLevel => ConsoleWarn
    case ErrorLevel => ConsoleError
  }

  /** The prefix written before the message for a recognised level. */
  function TagOf(level: Level): string
    requires level in RecognisedLevels
  {
    match level
    case InfoLevel => "[INFO]"
    case WarningLevel => "[WARN]"
    case ErrorLevel => "[ERROR]"
  }

  /** logMessage: the debug-level filter. At most one line is written, and it is
      written exactly when the level is one the debug level lets through. */
  function LogMessage<M>(debugLevel: int, level: Level, message: M, args: seq<string>): (r: Option<ConsoleLine<M>>)
    ensures r.Some? <==> level in EmittedLevels(debugLevel)
    ensures r.Some? ==> level in RecognisedLevels
                        && r.value.channel == ChannelOf(level) && r.value.tag == TagOf(level)
                        && r.value.message == message && r.value.args == args
  {
    if debugLevel > 0 then
      if debugLevel == 3
         || (debugLevel == 2 && (level == InfoLevel || level == WarningLevel))
         || (debugLevel == 1 && level == ErrorLevel)
      then
        if level == InfoLevel then Some(ConsoleLine(ConsoleLog, "[INFO]", message, args))
        else if level == WarningLevel then Some(ConsoleLine(ConsoleWarn, "[WARN]", message, args))
        else if level == ErrorLevel then Some(ConsoleLine(ConsoleError, "[ERROR]", message, args))
        else None
      else None
    else None
  }

  datatype Variant = VariantSuccess | VariantError

  /** The payload of a ShowToastEvent; the text type is left to the caller. */
  datatype Toast<M> = Toast(title: M, message: M, variant: Variant)

  /** showSuccessToast: the toast the component dispatches. */
  function ShowSuccessToast<M>(title: M, message: M): (t: Toast<M>)
    ensures t.variant == VariantSuccess && t.title == title && t.message == message
  {
    Toast(title, message, VariantSuccess)
  }

  /** showErrorToast: the toast the component dispatches. */
  function ShowErrorToast<M>(title: M, message: M): (t: Toast<M>)
    ensures t.variant == VariantError && t.title == title && t.message == message
  {
    Toast(title, message, VariantError)
  }

  /** The `error` field of an error event's detail: null, or a thrown value shown by its text. */
  datatype ErrorDetails = NullDetails | Thrown(description: string)

  datatype ErrorEvent = ErrorEvent(name: string, message: string, error: ErrorDetails)

  /** dispatchError: an event named 'error' whose detail is {message, error}. An omitted
      errorDetails argument (None) takes the default null. */
  function DispatchError(errorMessage: string, errorDetails: Option<ErrorDetails>): (e: ErrorEvent)
    ensures e.name == "error" && e.message == errorMessage
    ensures errorDetails.None? ==> e.error == NullDetails
    ensures errorDetails.Some? ==> e.error == errorDetails.value
  {
    ErrorEvent("error", errorMessage, if errorDetails.Some? then errorDetails.value else NullDetails)
  }

  /** logMessage's filter on the level string itself: a line is written exactly when the
      debug level is 3 and the name is recognised, 2 and the name is 'info' or 'warning',
      or 1 and the name is 'error'. */
  lemma LogMessageOfName<M>(debugLevel: int, name: string, message: M, args: seq<string>)
    ensures LogMessage(debugLevel, LevelOf(name), message, args).Some?
            <==> (debugLevel == 3 && (name == "info" || name == "warning" || name == "error"))
                 || (debugLevel == 2 && (name == "info" || name == "warning"))
                 || (debugLevel == 1 && name == "error")
  {
  }
}
