/**
 * The conversation-memory shapes, the environment lookup with a default, and
 * the outcome of loading the memory snapshot (helpers.ts). The process
 * environment is a map parameter; reading the snapshot file and `JSON.parse`
 * are abstract outcomes.
 */
module Helpers {
  import opened Wrappers
  import opened JsStrings

  /** The sender of a message. */
  datatype User = User(id: int, username: Option<string>)

  /** One recorded message: its text or caption, whether it was forwarded, and the deep link to its origin. */
  datatype StoredMessage = StoredMessage(text: Option<string>, forward: bool, forwardUrl: Option<string>, user: User)

  /** One chat: its messages keyed by message id and its prompt override. */
  datatype Chat = Chat(messages: map<int, StoredMessage>, prompt: Option<string>)

  /** The whole conversation memory, keyed by chat id. */
  type Memory = map<int, Chat>

  /** A stored message can be a generation source: it has (non-empty) text and was forwarded. */
  predicate Eligible(m: StoredMessage)
  {
    Truthy(m.text) && m.forward
  }

  /** The message `getEnv` throws when a required variable is missing. */
  function MissingVariable(key: string): string
  {
    "Environment variable " + key + " is required"
  }

  /**
   * `getEnv(key, defaultValue)`: a present, non-empty value wins; otherwise a
   * non-empty default; otherwise an error naming the key. An empty default
   * counts as none.
   */
  function GetEnv(env: map<string, string>, key: string, default: Option<string>): (r: Result<string, string>)
    ensures key in env && env[key] != "" ==> r == Success(env[key])
    ensures (key !in env || env[key] == "") && Truthy(default) ==> r == Success(default.value)
    ensures (key !in env || env[key] == "") && !Truthy(default) ==> r == Failure(MissingVariable(key))
  {
    if key in env && env[key] != "" then Success(env[key])
    else if Truthy(default) then Success(default.value)
    else Failure(MissingVariable(key))
  }

  /** What reading `memory.json` gave: its contents, "no such file", or another failure with its message. */
  datatype ReadOutcome = Contents(data: string) | NotFound | ReadFailed(message: string)

  /** What `JSON.parse` gave: a memory, or the parser's error message. */
  datatype ParseOutcome = Parsed(memory: Memory) | Malformed(message: string)

  /**
   * `loadMemory`: a missing file reads as the text `{}`, any other read failure
   * is an error, and text the parser rejects is an "Invalid memory file" error.
   */
  function LoadMemory(read: ReadOutcome, parse: string -> ParseOutcome): (r: Result<Memory, string>)
    ensures read.ReadFailed? ==> r == Failure("Error reading memory file: " + read.message)
    ensures read.NotFound? ==> r == Parse("{}", parse)
    ensures read.NotFound? && parse("{}") == Parsed(map[]) ==> r == Success(map[])
    ensures read.Contents? ==> r == Parse(read.data, parse)
  {
    match read
    case ReadFailed(e) => Failure("Error reading memory file: " + e)
    case NotFound => Parse("{}", parse)
    case Contents(data) => Parse(data, parse)
  }

  /** The parse step of `loadMemory`: a parsed memory, or an "Invalid memory file" error carrying the parser's message. */
  function Parse(data: string, parse: string -> ParseOutcome): (r: Result<Memory, string>)
    ensures parse(data).Parsed? ==> r == Success(parse(data).memory)
    ensures parse(data).Malformed? ==> r == Failure("Invalid memory file: " + parse(data).message)
  {
    match parse(data)
    case Parsed(m) => Success(m)
    case Malformed(e) => Failure("Invalid memory file: " + e)
  }
}
