/**
 * The Chat Completions payload the bot builds and the upstream service's
 * answer, as immutable values. Python's duck-typed message content (a string
 * or a list of parts) becomes a tagged union decided at construction.
 */
module Chat {
  import opened Wrappers

  datatype Role = System | User | Assistant

  /** One element of a list-valued `content`. */
  datatype Part =
    | TextPart(text: string)        // {"type": "text", "text": ...}
    | ImagePart(url: string)        // {"type": "image_url", "image_url": {"url": ...}}
    | OtherPart(kind: Option<string>, hasImageUrlKey: bool)
                                    // any other dict: its "type" value, if any,
                                    // and whether it has an "image_url" key
    | NotDict                       // a list element that is not a dict

  datatype Content = Text(text: string) | Parts(parts: seq<Part>)

  datatype Message = Message(role: Role, content: Content)

  /** Python's `len(content)`: characters of a string, elements of a list. */
  function Len(c: Content): nat {
    match c
    case Text(s) => |s|
    case Parts(ps) => |ps|
  }

  /** Python's `content[-k:]` for `0 < k <= len(content)`. */
  function KeepLast(c: Content, k: nat): (r: Content)
    requires 0 < k <= Len(c)
    ensures Len(r) == k
    ensures IsTail(r, c)
  {
    match c
    case Text(s) => Text(s[|s| - k..])
    case Parts(ps) => Parts(ps[|ps| - k..])
  }

  /** `r` is a trailing slice of `c` of the same kind. */
  ghost predicate IsTail(r: Content, c: Content) {
    match (r, c)
    case (Text(a), Text(b)) => |a| <= |b| && a == b[|b| - |a|..]
    case (Parts(a), Parts(b)) => |a| <= |b| && a == b[|b| - |a|..]
    case _ => false
  }

  /** A tail of a tail is a tail. */
  lemma IsTailTransitive(a: Content, b: Content, c: Content)
    requires IsTail(a, b) && IsTail(b, c)
    ensures IsTail(a, c)
  {
  }

  /** Sampling parameters; `None` means "not sent". Floats are kept as reals. */
  datatype Sampling = Sampling(
    temperature: Option<real>,
    topP: Option<real>,
    frequencyPenalty: Option<real>,
    presencePenalty: Option<real>)

  const NoSampling := Sampling(None, None, None, None)

  /**
   * The keyword arguments of one `chat.completions.create` call.
   * `forceText` is the presence of `response_format={"type": "text"}`.
   */
  datatype Request = Request(
    model: string,
    messages: seq<Message>,
    maxCompletionTokens: int,
    forceText: bool,
    sampling: Sampling)

  /** The first choice's message content (`None` when absent) and finish reason. */
  datatype Choice = Choice(content: Option<string>, finishReason: Option<string>)

  datatype Response = Response(choices: seq<Choice>)

  /**
   * The exceptions an upstream call can raise. All but `Other` are in the
   * set the full-completion retry loop catches; `DeadlineExceeded` is the
   * per-try `asyncio.timeout` firing.
   */
  datatype ErrorKind =
    | ApiTimeout          // openai.APITimeoutError
    | ApiConnection       // openai.APIConnectionError
    | RateLimited         // openai.RateLimitError
    | ApiStatus           // any other openai.APIError
    | ReadTimeout         // httpx.ReadTimeout
    | DeadlineExceeded    // asyncio.TimeoutError
    | Runtime             // RuntimeError
    | Other               // anything else, e.g. a ValueError

  /** What one upstream call did: answered, or raised. */
  datatype Outcome = Answered(response: Response) | Raised(error: ErrorKind)
}
