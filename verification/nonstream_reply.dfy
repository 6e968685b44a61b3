/**
 * The non-streaming reply pipeline: choose the models, run the full
 * completion with a light retry, a truncation extension and a short-answer
 * fallback, post-process the text and cut it into Discord-sized chunks.
 *
 * Upstream calls are an oracle: the full pipeline's calls consume a scripted
 * list of outcomes in order; a call past the end of the script is taken to hit
 * its per-try deadline.
 */
module NonstreamReply {
  import opened Wrappers
  import opened Strings
  import opened Chat
  import opened Chunking

  const DefaultModelFast := "gpt-5-mini"
  const DefaultModelHeavy := "gpt-5"
  const DefaultModelVision := "gpt-5-vision"

  /** Models with this prefix take no sampling parameters. */
  const NoTuningPrefix := "gpt-5"

  /** The system message appended for the last-resort short answer. */
  const ShortAnswerInstruction := "直前の会話に短く一言で返して。20文字以内。"

  /** Returned when the full call and the fallback both come back empty. */
  const ExhaustedText := "……返す言葉が見つからなかったわ。"

  /** Returned when the whole full call misses its hard deadline. */
  const TimeoutText := "魔力切れ。少ししてからもう一度。"

  /** The ceiling the truncation extension never exceeds. */
  const ExtensionCap: int := 2048

  /** The fallback call asks for at least this many tokens. */
  const FallbackFloor: int := 64

  function Min(a: int, b: int): int {
    if a <= b then a else b
  }

  function Max(a: int, b: int): int {
    if a >= b then a else b
  }

  /** `_supports_tuning`. */
  predicate SupportsTuning(model: string) {
    !StartsWith(model, NoTuningPrefix)
  }

  /** Every gpt-5 model name goes without sampling parameters; every gpt-4 one (gpt-4, gpt-4o, ...) takes them. */
  lemma SupportsTuningFamilies(suffix: string)
    ensures !SupportsTuning("gpt-5" + suffix)
    ensures SupportsTuning("gpt-4" + suffix)
  {
    assert ("gpt-5" + suffix)[..5] == "gpt-5";
    assert ("gpt-4" + suffix)[4] == '4';
  }

  /**
   * The keyword arguments `_call_chat_once` passes upstream: the sampling
   * parameters go out only for models that support them.
   */
  function BuildRequest(model: string, msgs: seq<Message>, maxTokens: int, sampling: Sampling,
                        forceText: bool): (r: Request)
    ensures r.model == model && r.messages == msgs && r.maxCompletionTokens == maxTokens
    ensures r.forceText == forceText
    ensures StartsWith(model, "gpt-5") ==> r.sampling == NoSampling
    ensures !StartsWith(model, "gpt-5") ==> r.sampling == sampling
  {
    Request(model, msgs, maxTokens, forceText, if SupportsTuning(model) then sampling else NoSampling)
  }

  /** A list element `_message_has_image` counts as an image. */
  predicate PartIsImage(p: Part) {
    match p
    case TextPart(_) => false
    case ImagePart(_) => true
    case OtherPart(kind, hasKey) => kind == Some("image_url") || kind == Some("input_image") || hasKey
    case NotDict => false
  }

  predicate ContentHasImage(c: Content) {
    c.Parts? && exists j :: 0 <= j < |c.parts| && PartIsImage(c.parts[j])
  }

  /** Some message has list content with an image part. */
  predicate HasImage(msgs: seq<Message>) {
    exists i :: 0 <= i < |msgs| && ContentHasImage(msgs[i].content)
  }

  /** `_message_has_image`: the nested scan with early return. */
  method MessageHasImage(msgs: seq<Message>) returns (found: bool)
    ensures found <==> HasImage(msgs)
  {
    var i := 0;
    while i < |msgs|
      invariant 0 <= i <= |msgs|
      invariant forall i' :: 0 <= i' < i ==> !ContentHasImage(msgs[i'].content)
    {
      if msgs[i].content.Parts? {
        var parts := msgs[i].content.parts;
        var j := 0;
        while j < |parts|
          invariant 0 <= j <= |parts|
          invariant forall j' :: 0 <= j' < j ==> !PartIsImage(parts[j'])
        {
          if PartIsImage(parts[j]) {
            assert ContentHasImage(msgs[i].content);
            return true;
          }
          j := j + 1;
        }
      }
      i := i + 1;
    }
    return false;
  }

  /** The keyword arguments of `nonstream_progressive_reply` the model uses. */
  datatype Config = Config(
    modelFull: string,
    modelPreview: string,
    modelVision: Option<string>,
    fullRetries: int,
    previewTokens: int,
    fullTokensFast: int,
    fullTokensHeavy: int,
    sampling: Sampling,
    autoExtend: bool)

  const DefaultConfig := Config(DefaultModelHeavy, DefaultModelFast, None, 1, 1500, 3000, 6000, NoSampling, true)

  /** `model_vision or DEFAULT_MODEL_VISION`: an empty name counts as missing. */
  function VisionModel(cfg: Config): (r: string)
    ensures r != ""
  {
    if cfg.modelVision.Some? && cfg.modelVision.value != "" then cfg.modelVision.value else DefaultModelVision
  }

  /** What the pipeline settles before the first call. */
  datatype Plan = Plan(
    fullModel: string,
    previewModel: string,
    tries: nat,
    baseTokens: int,
    previewTokens: int,
    sampling: Sampling,
    autoExtend: bool)

  /**
   * The vision switch, the number of normal tries and the token ceiling of a
   * normal try.
   */
  function MakePlan(cfg: Config, msgs: seq<Message>): (p: Plan)
    ensures HasImage(msgs) ==> p.fullModel == VisionModel(cfg) && p.previewModel == VisionModel(cfg)
    ensures !HasImage(msgs) ==> p.fullModel == cfg.modelFull && p.previewModel == cfg.modelPreview
    ensures p.tries >= 1 && p.tries >= cfg.fullRetries + 1
    ensures p.tries == 1 || p.tries == cfg.fullRetries + 1
    ensures StartsWith(p.fullModel, "gpt-5") ==> p.baseTokens == cfg.fullTokensHeavy
    ensures !StartsWith(p.fullModel, "gpt-5") ==> p.baseTokens == cfg.fullTokensFast
    ensures p.previewTokens == cfg.previewTokens && p.sampling == cfg.sampling
    ensures p.autoExtend == cfg.autoExtend
  {
    var full := if HasImage(msgs) then VisionModel(cfg) else cfg.modelFull;
    var preview := if HasImage(msgs) then VisionModel(cfg) else cfg.modelPreview;
    var tries := if cfg.fullRetries + 1 >= 1 then cfg.fullRetries + 1 else 1;
    var base := if StartsWith(full, "gpt-5") then cfg.fullTokensHeavy else cfg.fullTokensFast;
    Plan(full, preview, tries, base, cfg.previewTokens, cfg.sampling, cfg.autoExtend)
  }

  /** With the default configuration and no images, the full model is gpt-5 with 6000 tokens and two tries. */
  lemma DefaultPlan(msgs: seq<Message>)
    requires !HasImage(msgs)
    ensures MakePlan(DefaultConfig, msgs) == Plan("gpt-5", "gpt-5-mini", 2, 6000, 1500, NoSampling, true)
  {
  }

  /**
   * What `_call_chat_once` makes of an answer: the first choice's content,
   * stripped (or "" when there are no choices), and its finish reason.
   */
  function Interpret(resp: Response): (r: (string, Option<string>))
    ensures Unpadded(r.0)
    ensures |resp.choices| == 0 ==> r == ("", None)
    ensures |resp.choices| > 0 ==> r.1 == resp.choices[0].finishReason
    ensures |resp.choices| > 0 ==> r.0 == Trim(resp.choices[0].content.GetOr(""))
  {
    if |resp.choices| == 0 then ("", None)
    else (Trim(resp.choices[0].content.GetOr("")), resp.choices[0].finishReason)
  }

  /** The exceptions the retry loop catches: everything but `Other`. */
  predicate Caught(e: ErrorKind) {
    e != Other
  }

  /** The outcome of the `n`-th scripted call. */
  function CallAt(script: seq<Outcome>, n: nat): Outcome {
    if n < |script| then script[n] else Raised(DeadlineExceeded)
  }

  /** The first choice's raw content, "" when there is no choice or no content. */
  function RawText(o: Outcome): string
    requires o.Answered?
  {
    if |o.response.choices| > 0 then o.response.choices[0].content.GetOr("") else ""
  }

  /** The call answered with some non-whitespace text. */
  predicate GaveText(o: Outcome) {
    o.Answered? && !AllSpace(RawText(o))
  }

  /** The call raised an exception the retry loop does not catch. */
  predicate Escapes(o: Outcome) {
    o.Raised? && !Caught(o.error)
  }

  /** The call answered with no text, cut off by the length limit. */
  predicate LengthCut(o: Outcome) {
    && o.Answered? && |o.response.choices| > 0
    && o.response.choices[0].finishReason == Some("length") && AllSpace(RawText(o))
  }

  /** How the retry loop reads an outcome, in terms of `_call_chat_once`'s result. */
  lemma OutcomeKinds(o: Outcome)
    ensures o.Answered? ==> (GaveText(o) <==> Interpret(o.response).0 != "")
    ensures LengthCut(o) <==> o.Answered? && Interpret(o.response) == ("", Some("length"))
  {
  }

  /** What the fallback call yields: its text, or the fixed text. */
  function FallbackText(o: Outcome): string {
    if GaveText(o) then Interpret(o.response).0 else ExhaustedText
  }

  /** A call that neither gave text nor escaped: the loop moves on. */
  predicate Failed(o: Outcome) {
    !GaveText(o) && !Escapes(o)
  }

  /** What a flow's last call, of kind `kind` with outcome `o`, makes of the result. */
  predicate Ends(kind: CallKind, o: Outcome, result: Result<string, ErrorKind>) {
    if kind == Fallback then result == Success(FallbackText(o))
    else || (GaveText(o) && result == Success(Interpret(o.response).0))
         || (Escapes(o) && result == Failure(o.error))
  }

  datatype CallKind = Normal | Extension | Fallback | Preview

  /** One upstream call the pipeline made, and why. */
  datatype Call = Call(kind: CallKind, request: Request)

  function NormalRequest(p: Plan, msgs: seq<Message>): Request {
    BuildRequest(p.fullModel, msgs, p.baseTokens, p.sampling, true)
  }

  function ExtensionRequest(p: Plan, msgs: seq<Message>): Request {
    BuildRequest(p.fullModel, msgs, Min(2 * p.baseTokens, ExtensionCap), p.sampling, false)
  }

  function FallbackRequest(p: Plan, msgs: seq<Message>): Request {
    BuildRequest(p.previewModel, msgs + [Message(System, Text(ShortAnswerInstruction))],
                 Max(FallbackFloor, p.previewTokens), p.sampling, true)
  }

  function PreviewRequest(p: Plan, msgs: seq<Message>): Request {
    BuildRequest(p.previewModel, msgs, p.previewTokens, p.sampling, true)
  }

  /** Every call's request is the one its kind prescribes. */
  predicate Prescribed(p: Plan, msgs: seq<Message>, c: Call) {
    match c.kind
    case Normal => c.request == NormalRequest(p, msgs)
    case Extension => c.request == ExtensionRequest(p, msgs)
    case Fallback => c.request == FallbackRequest(p, msgs)
    case Preview => c.request == PreviewRequest(p, msgs)
  }

  /** The extension asks for at most twice the base and at most 2048 tokens, without forcing text. */
  lemma ExtensionCeiling(p: Plan, msgs: seq<Message>)
    ensures ExtensionRequest(p, msgs).maxCompletionTokens <= 2 * p.baseTokens
    ensures ExtensionRequest(p, msgs).maxCompletionTokens <= 2048
    ensures p.baseTokens <= 1024 ==> ExtensionRequest(p, msgs).maxCompletionTokens == 2 * p.baseTokens
    ensures !ExtensionRequest(p, msgs).forceText
  {
  }

  /**
   * With the default ceilings the "extension" asks for fewer tokens than the
   * normal try it cut: 2048 against 6000.
   */
  lemma ExtensionShrinksAtDefaults(msgs: seq<Message>)
    requires !HasImage(msgs)
    ensures ExtensionRequest(MakePlan(DefaultConfig, msgs), msgs).maxCompletionTokens == 2048
    ensures NormalRequest(MakePlan(DefaultConfig, msgs), msgs).maxCompletionTokens == 6000
  {
    DefaultPlan(msgs);
  }

  /** The calls made and what came out: a text, or an exception that escaped. */
  datatype Flow = Flow(calls: seq<Call>, result: Result<string, ErrorKind>)

  function Then(calls: seq<Call>, rest: Flow): Flow {
    Flow(calls + rest.calls, rest.result)
  }

  /** The final fallback: any exception, or an empty answer, yields the fixed text. */
  function FallbackStep(p: Plan, msgs: seq<Message>, script: seq<Outcome>, n: nat): (r: Flow)
    ensures r.calls == [Call(Fallback, FallbackRequest(p, msgs))]
    ensures r.result.Success? && r.result.value != "" && Unpadded(r.result.value)
    ensures (CallAt(script, n).Answered? && Interpret(CallAt(script, n).response).0 != "")
              ==> r.result.value == Interpret(CallAt(script, n).response).0
    ensures (!(CallAt(script, n).Answered? && Interpret(CallAt(script, n).response).0 != ""))
              ==> r.result.value == ExhaustedText
  {
    var call := [Call(Fallback, FallbackRequest(p, msgs))];
    match CallAt(script, n)
    case Raised(_) => Flow(call, Success(ExhaustedText))
    case Answered(resp) =>
      var text := Interpret(resp).0;
      Flow(call, Success(if text != "" then text else ExhaustedText))
  }

  /**
   * `_full_call_with_light_retry` from try number `attempt` on, with `n`
   * scripted outcomes already consumed: normal tries, each possibly followed
   * by the truncation extension, then the fallback. An empty answer counts
   * as a caught `RuntimeError`; an exception outside the caught set escapes.
   */
  function Attempts(p: Plan, msgs: seq<Message>, script: seq<Outcome>, attempt: nat, n: nat): (r: Flow)
    requires attempt <= p.tries
    ensures |r.calls| >= 1
    ensures forall i :: 0 <= i < |r.calls| ==> Prescribed(p, msgs, r.calls[i])
    ensures r.result.Success? ==> r.result.value != "" && Unpadded(r.result.value)
    decreases p.tries - attempt
  {
    if attempt == p.tries then FallbackStep(p, msgs, script, n)
    else
      var normal := [Call(Normal, NormalRequest(p, msgs))];
      match CallAt(script, n)
      case Raised(e) =>
        if Caught(e) then Then(normal, Attempts(p, msgs, script, attempt + 1, n + 1))
        else Flow(normal, Failure(e))
      case Answered(resp) =>
        var (text, finish) := Interpret(resp);
        if text != "" then Flow(normal, Success(text))
        else if p.autoExtend && finish == Some("length") then
          Then(normal, Extend(p, msgs, script, attempt, n + 1))
        else Then(normal, Attempts(p, msgs, script, attempt + 1, n + 1))
  }

  /** The truncation extension inside try `attempt`, as outcome `n`. */
  function Extend(p: Plan, msgs: seq<Message>, script: seq<Outcome>, attempt: nat, n: nat): (r: Flow)
    requires attempt < p.tries
    ensures |r.calls| >= 1
    ensures forall i :: 0 <= i < |r.calls| ==> Prescribed(p, msgs, r.calls[i])
    ensures r.result.Success? ==> r.result.value != "" && Unpadded(r.result.value)
    decreases p.tries - attempt, 0
  {
    var extension := [Call(Extension, ExtensionRequest(p, msgs))];
    match CallAt(script, n)
    case Raised(e) =>
      if Caught(e) then Then(extension, Attempts(p, msgs, script, attempt + 1, n + 1))
      else Flow(extension, Failure(e))
    case Answered(resp) =>
      var text := Interpret(resp).0;
      if text != "" then Flow(extension, Success(text))
      else Then(extension, Attempts(p, msgs, script, attempt + 1, n + 1))
  }

  /**
   * `_full_call_with_light_retry`, from the first try and the first outcome:
   * the calls follow the call-by-call description, so the text returned is
   * the first one any call gave (or the fallback's text, or the fixed text).
   */
  function FullCall(p: Plan, msgs: seq<Message>, script: seq<Outcome>): (r: Flow)
    ensures Traced(p, script, 0, r, false, p.tries)
  {
    AttemptsTraced(p, msgs, script, 0, 0);
    Attempts(p, msgs, script, 0, 0)
  }

  /** A first try that answers with text returns it at once, after one call. */
  lemma FirstAnswerReturned(p: Plan, msgs: seq<Message>, script: seq<Outcome>)
    requires p.tries >= 1
    requires |script| > 0 && script[0].Answered? && Interpret(script[0].response).0 != ""
    ensures FullCall(p, msgs, script)
              == Flow([Call(Normal, NormalRequest(p, msgs))], Success(Interpret(script[0].response).0))
  {
  }

  /** An exception outside the caught set escapes from whichever try it hits. */
  lemma UncaughtEscapes(p: Plan, msgs: seq<Message>, script: seq<Outcome>, attempt: nat, n: nat)
    requires attempt < p.tries
    requires Escapes(CallAt(script, n))
    ensures Attempts(p, msgs, script, attempt, n)
              == Flow([Call(Normal, NormalRequest(p, msgs))], Failure(CallAt(script, n).error))
  {
  }

  /** An exception outside the caught set escapes from the extension too. */
  lemma UncaughtEscapesExtension(p: Plan, msgs: seq<Message>, script: seq<Outcome>, attempt: nat, n: nat)
    requires attempt < p.tries
    requires Escapes(CallAt(script, n))
    ensures Extend(p, msgs, script, attempt, n)
              == Flow([Call(Extension, ExtensionRequest(p, msgs))], Failure(CallAt(script, n).error))
  {
  }

  /**
   * A try whose answer is empty and cut off by the length limit is extended
   * (with auto-extension on), at any try: the extension call comes next,
   * and when it has text, that text is returned after exactly these two
   * calls.
   */
  lemma TruncationExtended(p: Plan, msgs: seq<Message>, script: seq<Outcome>, attempt: nat, n: nat)
    requires attempt < p.tries && p.autoExtend
    requires LengthCut(CallAt(script, n))
    ensures Attempts(p, msgs, script, attempt, n)
              == Then([Call(Normal, NormalRequest(p, msgs))], Extend(p, msgs, script, attempt, n + 1))
    ensures GaveText(CallAt(script, n + 1)) ==>
              Attempts(p, msgs, script, attempt, n)
                == Flow([Call(Normal, NormalRequest(p, msgs)), Call(Extension, ExtensionRequest(p, msgs))],
                        Success(Interpret(CallAt(script, n + 1).response).0))
  {
    OutcomeKinds(CallAt(script, n));
    OutcomeKinds(CallAt(script, n + 1));
    var normal := [Call(Normal, NormalRequest(p, msgs))];
    assert Attempts(p, msgs, script, attempt, n) == Then(normal, Extend(p, msgs, script, attempt, n + 1));
  }

  /** Every outcome from `n` up to (not including) `j` failed. */
  predicate FailedUntil(script: seq<Outcome>, n: nat, j: nat) {
    forall i :: n <= i < j ==> Failed(CallAt(script, i))
  }

  /**
   * Call `k` is an extension exactly when call `k - 1` was a normal call
   * whose answer was empty and cut by the length limit, with auto-extension on.
   */
  predicate ExtensionExactlyAfterCut(p: Plan, script: seq<Outcome>, n: nat, calls: seq<Call>, k: nat)
    requires 1 <= k < |calls|
  {
    calls[k].kind == Extension <==>
      calls[k - 1].kind == Normal && LengthCut(CallAt(script, n + k - 1)) && p.autoExtend
  }

  /** Every call but the last failed, and extensions come exactly after length cuts. */
  predicate Stepped(p: Plan, script: seq<Outcome>, n: nat, calls: seq<Call>, startsExtended: bool) {
    && |calls| >= 1
    && FailedUntil(script, n, n + |calls| - 1)
    && (calls[0].kind == Extension <==> startsExtended)
    && (forall k :: 1 <= k < |calls| ==> ExtensionExactlyAfterCut(p, script, n, calls, k))
  }

  /** The outcome index of the last of `calls`, when the first consumed outcome `n`. */
  function LastIndex(n: nat, calls: seq<Call>): nat
    requires |calls| >= 1
  {
    n + |calls| - 1
  }

  /** The last call's outcome decides the result. */
  predicate EndsAt(script: seq<Outcome>, n: nat, calls: seq<Call>, result: Result<string, ErrorKind>) {
    |calls| >= 1 && Ends(calls[|calls| - 1].kind, CallAt(script, LastIndex(n, calls)), result)
  }

  /**
   * The kind of call `k` is set by the tries used so far: unless it is an
   * extension, it is a normal try while fewer than `normals` normal calls
   * came before it, and the fallback once they all have; and a fallback is
   * always the last call.
   */
  predicate PacedAt(calls: seq<Call>, normals: nat, k: nat)
    requires k < |calls|
  {
    && (calls[k].kind != Extension ==>
          calls[k].kind == (if Count(calls[..k], Normal) == normals then Fallback else Normal))
    && (calls[k].kind == Fallback ==> k == |calls| - 1)
  }

  /** Every call is paced by the `normals` normal tries available. */
  predicate Paced(calls: seq<Call>, normals: nat) {
    forall k :: 0 <= k < |calls| ==> PacedAt(calls, normals, k)
  }

  /**
   * The retry loop's behaviour, stated call by call over the outcomes from
   * `n` on, with `normals` normal tries still available: every call but the
   * last failed; the last decides the result; an extension comes exactly
   * after a normal call whose answer was empty and cut by the length limit,
   * with auto-extension on; every other call is a normal try until all
   * `normals` have been made, and then the fallback, which ends the flow.
   */
  predicate Traced(p: Plan, script: seq<Outcome>, n: nat, f: Flow, startsExtended: bool, normals: nat) {
    Decided(p, script, n, f, startsExtended) && Paced(f.calls, normals)
  }

  /** The part of `Traced` about outcomes: which calls failed, where extensions go, what the last call decides. */
  predicate Decided(p: Plan, script: seq<Outcome>, n: nat, f: Flow, startsExtended: bool) {
    Stepped(p, script, n, f.calls, startsExtended) && EndsAt(script, n, f.calls, f.result)
  }

  /** A single call that decides the result is a decided flow. */
  lemma SingleDecided(p: Plan, script: seq<Outcome>, n: nat, f: Flow, startsExtended: bool)
    requires |f.calls| == 1 && (f.calls[0].kind == Extension <==> startsExtended)
    requires Ends(f.calls[0].kind, CallAt(script, n), f.result)
    ensures Decided(p, script, n, f, startsExtended)
  {
  }

  /** A single call of the kind the pacing prescribes first is paced. */
  lemma SinglePaced(calls: seq<Call>, normals: nat)
    requires |calls| == 1
    requires calls[0].kind == Extension || calls[0].kind == (if normals == 0 then Fallback else Normal)
    ensures Paced(calls, normals)
  {
    assert calls[..0] == [];
    assert PacedAt(calls, normals, 0);
  }

  /** Putting a normal call (one try used) or an extension (none used) in front keeps the pacing. */
  lemma ConsPaced(c: Call, calls: seq<Call>, normals: nat, restNormals: nat)
    requires Paced(calls, restNormals)
    requires (c.kind == Normal && normals > 0 && restNormals == normals - 1)
             || (c.kind == Extension && restNormals == normals)
    ensures Paced([c] + calls, normals)
  {
    var all := [c] + calls;
    forall k | 0 <= k < |all|
      ensures PacedAt(all, normals, k)
    {
      if k == 0 {
        assert all[..0] == [];
      } else {
        assert PacedAt(calls, restNormals, k - 1);
        assert all[k] == calls[k - 1];
        assert all[..k] == [c] + calls[..k - 1];
        assert ([c] + calls[..k - 1])[1..] == calls[..k - 1];
      }
    }
  }

  /** Index shift for `ExtensionExactlyAfterCut` when a call is put in front. */
  lemma ConsExactlyAfterCut(p: Plan, script: seq<Outcome>, n: nat, n1: nat, c: Call, calls: seq<Call>)
    requires |calls| >= 1 && n1 == n + 1
    requires forall k :: 1 <= k < |calls| ==> ExtensionExactlyAfterCut(p, script, n1, calls, k)
    requires calls[0].kind == Extension <==> c.kind == Normal && LengthCut(CallAt(script, n)) && p.autoExtend
    ensures forall k :: 1 <= k < |calls| + 1 ==> ExtensionExactlyAfterCut(p, script, n, [c] + calls, k)
  {
    var all := [c] + calls;
    forall k | 1 <= k < |all|
      ensures ExtensionExactlyAfterCut(p, script, n, all, k)
    {
      if k >= 2 {
        assert ExtensionExactlyAfterCut(p, script, n1, calls, k - 1);
        assert all[k] == calls[k - 1] && all[k - 1] == calls[k - 2];
        assert n + k - 1 == (n + 1) + (k - 1) - 1;
      }
    }
  }

  /** A failed normal call or extension in front of a decided flow gives a decided flow. */
  lemma PrependDecided(p: Plan, script: seq<Outcome>, n: nat, c: Call, rest: Flow, restExtended: bool)
    requires Decided(p, script, n + 1, rest, restExtended)
    requires Failed(CallAt(script, n))
    requires restExtended <==> c.kind == Normal && LengthCut(CallAt(script, n)) && p.autoExtend
    ensures Decided(p, script, n, Then([c], rest), c.kind == Extension)
  {
    var f := Then([c], rest);
    assert f == Flow([c] + rest.calls, rest.result);
    ConsStepped(p, script, n, c, rest.calls, restExtended);
    ConsEnds(script, n, c, rest.calls, rest.result);
  }

  /** `Stepped` with a failed call put in front. */
  lemma ConsStepped(p: Plan, script: seq<Outcome>, n: nat, c: Call, calls: seq<Call>, restExtended: bool)
    requires Stepped(p, script, n + 1, calls, restExtended)
    requires Failed(CallAt(script, n))
    requires restExtended <==> c.kind == Normal && LengthCut(CallAt(script, n)) && p.autoExtend
    ensures Stepped(p, script, n, [c] + calls, c.kind == Extension)
  {
    assert FailedUntil(script, n, n + |calls|) by {
      assert FailedUntil(script, n + 1, (n + 1) + |calls| - 1);
    }
    ConsExactlyAfterCut(p, script, n, n + 1, c, calls);
  }

  /** `EndsAt` with a call put in front: the last call and its outcome stay the same. */
  lemma ConsEnds(script: seq<Outcome>, n: nat, c: Call, calls: seq<Call>, result: Result<string, ErrorKind>)
    requires EndsAt(script, n + 1, calls, result)
    ensures EndsAt(script, n, [c] + calls, result)
  {
    LastShift(n, c, calls);
  }

  /** Putting a call in front keeps the last call and where it sits in the outcomes. */
  lemma LastShift(n: nat, c: Call, calls: seq<Call>)
    requires |calls| >= 1
    ensures ([c] + calls)[|[c] + calls| - 1] == calls[|calls| - 1]
    ensures LastIndex(n, [c] + calls) == LastIndex(n + 1, calls)
  {
  }

  /** One step of the retry loop, read through the outcome predicates. */
  lemma AttemptsStep(p: Plan, msgs: seq<Message>, script: seq<Outcome>, attempt: nat, n: nat)
    requires attempt < p.tries
    ensures var f, o := Attempts(p, msgs, script, attempt, n), CallAt(script, n);
      var normal := [Call(Normal, NormalRequest(p, msgs))];
      && (!Failed(o) ==> f.calls == normal && Ends(Normal, o, f.result))
      && (Failed(o) && p.autoExtend && LengthCut(o) ==> f == Then(normal, Extend(p, msgs, script, attempt, n + 1)))
      && (Failed(o) && !(p.autoExtend && LengthCut(o)) ==> f == Then(normal, Attempts(p, msgs, script, attempt + 1, n + 1)))
  {
    OutcomeKinds(CallAt(script, n));
  }

  /** One step of the extension, read through the outcome predicates. */
  lemma ExtendStep(p: Plan, msgs: seq<Message>, script: seq<Outcome>, attempt: nat, n: nat)
    requires attempt < p.tries
    ensures var f, o := Extend(p, msgs, script, attempt, n), CallAt(script, n);
      var ext := [Call(Extension, ExtensionRequest(p, msgs))];
      && (!Failed(o) ==> f.calls == ext && Ends(Extension, o, f.result))
      && (Failed(o) ==> f == Then(ext, Attempts(p, msgs, script, attempt + 1, n + 1)))
  {
    OutcomeKinds(CallAt(script, n));
  }

  /** The fallback step, read through the outcome predicates. */
  lemma FallbackDecided(p: Plan, msgs: seq<Message>, script: seq<Outcome>, n: nat)
    ensures Decided(p, script, n, FallbackStep(p, msgs, script, n), false)
  {
    OutcomeKinds(CallAt(script, n));
    var f := FallbackStep(p, msgs, script, n);
    assert Ends(Fallback, CallAt(script, n), f.result);
  }

  /** The outcome part of the call-by-call description, from try `attempt` on. */
  lemma {:induction false} AttemptsDecided(p: Plan, msgs: seq<Message>, script: seq<Outcome>, attempt: nat, n: nat)
    requires attempt <= p.tries
    ensures Decided(p, script, n, Attempts(p, msgs, script, attempt, n), false)
    decreases p.tries - attempt, 1
  {
    var f := Attempts(p, msgs, script, attempt, n);
    var o := CallAt(script, n);
    if attempt == p.tries {
      FallbackDecided(p, msgs, script, n);
    } else {
      var normal := Call(Normal, NormalRequest(p, msgs));
      if !Failed(o) {
        assert f.calls == [normal] && Ends(Normal, o, f.result) by {
          AttemptsStep(p, msgs, script, attempt, n);
        }
        SingleDecided(p, script, n, f, false);
      } else if p.autoExtend && LengthCut(o) {
        var rest := Extend(p, msgs, script, attempt, n + 1);
        assert f == Then([normal], rest) by {
          AttemptsStep(p, msgs, script, attempt, n);
        }
        ExtendDecided(p, msgs, script, attempt, n + 1);
        PrependDecided(p, script, n, normal, rest, true);
      } else {
        var rest := Attempts(p, msgs, script, attempt + 1, n + 1);
        assert f == Then([normal], rest) by {
          AttemptsStep(p, msgs, script, attempt, n);
        }
        AttemptsDecided(p, msgs, script, attempt + 1, n + 1);
        PrependDecided(p, script, n, normal, rest, false);
      }
    }
  }

  /** The outcome part for the extension and what follows it. */
  lemma {:induction false} ExtendDecided(p: Plan, msgs: seq<Message>, script: seq<Outcome>, attempt: nat, n: nat)
    requires attempt < p.tries
    ensures Decided(p, script, n, Extend(p, msgs, script, attempt, n), true)
    decreases p.tries - attempt, 0
  {
    var f := Extend(p, msgs, script, attempt, n);
    var o := CallAt(script, n);
    var ext := Call(Extension, ExtensionRequest(p, msgs));
    if !Failed(o) {
      assert f.calls == [ext] && Ends(Extension, o, f.result) by {
        ExtendStep(p, msgs, script, attempt, n);
      }
      SingleDecided(p, script, n, f, true);
    } else {
      var rest := Attempts(p, msgs, script, attempt + 1, n + 1);
      assert f == Then([ext], rest) by {
        ExtendStep(p, msgs, script, attempt, n);
      }
      AttemptsDecided(p, msgs, script, attempt + 1, n + 1);
      PrependDecided(p, script, n, ext, rest, false);
    }
  }

  /** The pacing of the calls from try `attempt` on, with `p.tries - attempt` normal tries left. */
  lemma {:induction false} AttemptsPaced(p: Plan, msgs: seq<Message>, script: seq<Outcome>, attempt: nat, n: nat)
    requires attempt <= p.tries
    ensures Paced(Attempts(p, msgs, script, attempt, n).calls, p.tries - attempt)
    decreases p.tries - attempt, 1
  {
    var f := Attempts(p, msgs, script, attempt, n);
    var o := CallAt(script, n);
    if attempt == p.tries {
      SinglePaced(f.calls, 0);
    } else {
      var normal := Call(Normal, NormalRequest(p, msgs));
      if !Failed(o) {
        assert f.calls == [normal] by {
          AttemptsStep(p, msgs, script, attempt, n);
        }
        SinglePaced(f.calls, p.tries - attempt);
      } else if p.autoExtend && LengthCut(o) {
        var rest := Extend(p, msgs, script, attempt, n + 1);
        assert f.calls == [normal] + rest.calls by {
          AttemptsStep(p, msgs, script, attempt, n);
        }
        ExtendPaced(p, msgs, script, attempt, n + 1);
        ConsPaced(normal, rest.calls, p.tries - attempt, p.tries - attempt - 1);
      } else {
        var rest := Attempts(p, msgs, script, attempt + 1, n + 1);
        assert f.calls == [normal] + rest.calls by {
          AttemptsStep(p, msgs, script, attempt, n);
        }
        AttemptsPaced(p, msgs, script, attempt + 1, n + 1);
        ConsPaced(normal, rest.calls, p.tries - attempt, p.tries - attempt - 1);
      }
    }
  }

  /** The pacing from an extension on: the extension uses no normal try. */
  lemma {:induction false} ExtendPaced(p: Plan, msgs: seq<Message>, script: seq<Outcome>, attempt: nat, n: nat)
    requires attempt < p.tries
    ensures Paced(Extend(p, msgs, script, attempt, n).calls, p.tries - attempt - 1)
    decreases p.tries - attempt, 0
  {
    var f := Extend(p, msgs, script, attempt, n);
    var ext := Call(Extension, ExtensionRequest(p, msgs));
    if !Failed(CallAt(script, n)) {
      assert f.calls == [ext] by {
        ExtendStep(p, msgs, script, attempt, n);
      }
      SinglePaced(f.calls, p.tries - attempt - 1);
    } else {
      var rest := Attempts(p, msgs, script, attempt + 1, n + 1);
      assert f.calls == [ext] + rest.calls by {
        ExtendStep(p, msgs, script, attempt, n);
      }
      AttemptsPaced(p, msgs, script, attempt + 1, n + 1);
      ConsPaced(ext, rest.calls, p.tries - attempt - 1, p.tries - attempt - 1);
    }
  }

  /**
   * The retry loop from try `attempt` on follows the call-by-call
   * description, with the `p.tries - attempt` remaining normal tries.
   */
  lemma AttemptsTraced(p: Plan, msgs: seq<Message>, script: seq<Outcome>, attempt: nat, n: nat)
    requires attempt <= p.tries
    ensures Traced(p, script, n, Attempts(p, msgs, script, attempt, n), false, p.tries - attempt)
  {
    AttemptsDecided(p, msgs, script, attempt, n);
    AttemptsPaced(p, msgs, script, attempt, n);
  }

  /**
   * The same for the extension and what follows it: the extension belongs
   * to try `attempt`, so `p.tries - attempt - 1` normal tries remain.
   */
  lemma ExtendTraced(p: Plan, msgs: seq<Message>, script: seq<Outcome>, attempt: nat, n: nat)
    requires attempt < p.tries
    ensures Traced(p, script, n, Extend(p, msgs, script, attempt, n), true, p.tries - attempt - 1)
  {
    ExtendDecided(p, msgs, script, attempt, n);
    ExtendPaced(p, msgs, script, attempt, n);
  }

  /**
   * An extension call happens only right after a normal call whose answer
   * was empty and cut by the length limit, and only with auto-extension on.
   */
  lemma ExtensionOnlyAfterCut(p: Plan, msgs: seq<Message>, script: seq<Outcome>, k: nat)
    requires k < |FullCall(p, msgs, script).calls| && FullCall(p, msgs, script).calls[k].kind == Extension
    ensures k > 0 && FullCall(p, msgs, script).calls[k - 1].kind == Normal
    ensures LengthCut(CallAt(script, k - 1)) && p.autoExtend
  {
    AttemptsTraced(p, msgs, script, 0, 0);
    assert ExtensionExactlyAfterCut(p, script, 0, FullCall(p, msgs, script).calls, k);
  }

  /**
   * The fallback is called only after every normal try has been made, and
   * it is the last call.
   */
  lemma FallbackOnlyAfterAllTries(p: Plan, msgs: seq<Message>, script: seq<Outcome>, k: nat)
    requires k < |FullCall(p, msgs, script).calls| && FullCall(p, msgs, script).calls[k].kind == Fallback
    ensures k == |FullCall(p, msgs, script).calls| - 1
    ensures Count(FullCall(p, msgs, script).calls[..k], Normal) == p.tries
  {
    assert PacedAt(FullCall(p, msgs, script).calls, p.tries, k);
  }

  function Kinds(calls: seq<Call>): seq<CallKind> {
    seq(|calls|, i requires 0 <= i < |calls| => calls[i].kind)
  }

  /** `k` normal calls followed by the fallback. */
  function NormalsThenFallback(k: nat): (r: seq<CallKind>)
    ensures |r| == k + 1
  {
    seq(k, i => Normal) + [Fallback]
  }

  /**
   * When every call fails with a caught exception, the pipeline makes every
   * remaining normal try, then the fallback, and returns the fixed text.
   */
  lemma {:induction false} AllFailuresExhaust(p: Plan, msgs: seq<Message>, script: seq<Outcome>,
                                              attempt: nat, n: nat)
    requires attempt <= p.tries
    requires forall i :: 0 <= i < |script| ==> script[i].Raised? && Caught(script[i].error)
    ensures Kinds(Attempts(p, msgs, script, attempt, n).calls) == NormalsThenFallback(p.tries - attempt)
    ensures Attempts(p, msgs, script, attempt, n).result == Success(ExhaustedText)
    decreases p.tries - attempt
  {
    if attempt < p.tries {
      var rest := Attempts(p, msgs, script, attempt + 1, n + 1);
      AllFailuresExhaust(p, msgs, script, attempt + 1, n + 1);
      var normal := [Call(Normal, NormalRequest(p, msgs))];
      assert Attempts(p, msgs, script, attempt, n) == Then(normal, rest);
      assert Kinds(normal + rest.calls) == [Normal] + Kinds(rest.calls);
      assert [Normal] + NormalsThenFallback(p.tries - attempt - 1) == NormalsThenFallback(p.tries - attempt);
    }
  }

  /** How many calls of kind `k`. */
  function Count(calls: seq<Call>, k: CallKind): (r: nat)
    ensures r <= |calls|
  {
    if |calls| == 0 then 0 else (if calls[0].kind == k then 1 else 0) + Count(calls[1..], k)
  }

  /** Counting over a concatenation adds the counts. */
  lemma {:induction false} CountAppend(a: seq<Call>, b: seq<Call>, k: CallKind)
    ensures Count(a + b, k) == Count(a, k) + Count(b, k)
  {
    if |a| > 0 {
      assert (a + b)[1..] == a[1..] + b;
      CountAppend(a[1..], b, k);
    } else {
      assert a + b == b;
    }
  }

  /**
   * At most `normals` normal calls and `extensions` extensions, at most one
   * fallback, and the fallback, if any, last.
   */
  predicate Shaped(calls: seq<Call>, normals: nat, extensions: nat) {
    && Count(calls, Normal) <= normals
    && Count(calls, Extension) <= extensions
    && Count(calls, Fallback) <= 1
    && forall i :: 0 <= i < |calls| - 1 ==> calls[i].kind != Fallback
  }

  /**
   * The calls from try `attempt` on: at most one normal call and one
   * extension per remaining try, and the fallback at most once, last.
   */
  lemma {:induction false} AttemptsShaped(p: Plan, msgs: seq<Message>, script: seq<Outcome>, attempt: nat, n: nat)
    requires attempt <= p.tries
    ensures Shaped(Attempts(p, msgs, script, attempt, n).calls, p.tries - attempt, p.tries - attempt)
    decreases p.tries - attempt, 1
  {
    var f := Attempts(p, msgs, script, attempt, n);
    var o := CallAt(script, n);
    if attempt == p.tries {
      assert f.calls == [Call(Fallback, FallbackRequest(p, msgs))];
    } else {
      var k := p.tries - attempt;
      var normal := [Call(Normal, NormalRequest(p, msgs))];
      if !Failed(o) {
        assert f.calls == normal by {
          AttemptsStep(p, msgs, script, attempt, n);
        }
        ShapedAfter(normal, f.calls, [], k - 1, k - 1);
      } else if p.autoExtend && LengthCut(o) {
        var rest := Extend(p, msgs, script, attempt, n + 1);
        assert f == Then(normal, rest) by {
          AttemptsStep(p, msgs, script, attempt, n);
        }
        ExtendShaped(p, msgs, script, attempt, n + 1);
        PrependShaped(normal, rest.calls, k - 1, k);
      } else {
        var rest := Attempts(p, msgs, script, attempt + 1, n + 1);
        assert f == Then(normal, rest) by {
          AttemptsStep(p, msgs, script, attempt, n);
        }
        AttemptsShaped(p, msgs, script, attempt + 1, n + 1);
        PrependShaped(normal, rest.calls, k - 1, k - 1);
      }
    }
  }

  /** The extension and what follows it: one extension, then the remaining tries. */
  lemma {:induction false} ExtendShaped(p: Plan, msgs: seq<Message>, script: seq<Outcome>, attempt: nat, n: nat)
    requires attempt < p.tries
    ensures Shaped(Extend(p, msgs, script, attempt, n).calls, p.tries - attempt - 1, p.tries - attempt)
    decreases p.tries - attempt, 0
  {
    var f := Extend(p, msgs, script, attempt, n);
    var k := p.tries - attempt;
    var ext := [Call(Extension, ExtensionRequest(p, msgs))];
    if !Failed(CallAt(script, n)) {
      assert f.calls == ext by {
        ExtendStep(p, msgs, script, attempt, n);
      }
      ShapedAfter(ext, f.calls, [], k - 1, k - 1);
    } else {
      var rest := Attempts(p, msgs, script, attempt + 1, n + 1);
      assert f == Then(ext, rest) by {
        ExtendStep(p, msgs, script, attempt, n);
      }
      AttemptsShaped(p, msgs, script, attempt + 1, n + 1);
      PrependShaped(ext, rest.calls, k - 1, k - 1);
    }
  }

  /** A single non-fallback call, alone or before a shaped list, is shaped with one more of its kind. */
  lemma ShapedAfter(head: seq<Call>, calls: seq<Call>, tail: seq<Call>, normals: nat, extensions: nat)
    requires |head| == 1 && (head[0].kind == Normal || head[0].kind == Extension)
    requires calls == head || calls == head + tail
    requires Shaped(tail, normals, extensions)
    ensures head[0].kind == Normal ==> Shaped(calls, normals + 1, extensions)
    ensures head[0].kind == Extension ==> Shaped(calls, normals, extensions + 1)
  {
    if calls == head {
      PrependShaped(head, [], 0, 0);
      assert head + [] == head;
    } else {
      PrependShaped(head, tail, normals, extensions);
    }
  }

  /** Prefixing one non-fallback call to a shaped list adds one call of its kind. */
  lemma PrependShaped(head: seq<Call>, tail: seq<Call>, normals: nat, extensions: nat)
    requires |head| == 1 && (head[0].kind == Normal || head[0].kind == Extension)
    requires Shaped(tail, normals, extensions)
    ensures head[0].kind == Normal ==> Shaped(head + tail, normals + 1, extensions)
    ensures head[0].kind == Extension ==> Shaped(head + tail, normals, extensions + 1)
  {
    CountAppend(head, tail, Normal);
    CountAppend(head, tail, Extension);
    CountAppend(head, tail, Fallback);
    assert [] + tail == tail;
  }

  /** The preview call: its text, or "" on any exception. Nothing reads the result. */
  function PreviewCall(p: Plan, msgs: seq<Message>, outcome: Outcome): (r: (Call, string))
    ensures Prescribed(p, msgs, r.0) && r.0.kind == Preview
    ensures Unpadded(r.1)
    ensures outcome.Raised? ==> r.1 == ""
    ensures outcome.Answered? ==> r.1 == Interpret(outcome.response).0
  {
    var call := Call(Preview, PreviewRequest(p, msgs));
    match outcome
    case Raised(_) => (call, "")
    case Answered(resp) => (call, Interpret(resp).0)
  }

  /** What a post-processing hook did with the text. */
  datatype HookResult = Returned(value: string) | Threw

  datatype Hook = NoHook | Hook(run: string -> HookResult)

  /**
   * The post-processing guard: strip, then take the hook's result only when
   * it is a non-empty string; a hook that throws leaves the text as it was.
   */
  function Postprocess(text: string, hook: Hook): (r: string)
    ensures hook.NoHook? ==> r == Trim(text)
    ensures (hook.Hook? && hook.run(Trim(text)).Returned? && hook.run(Trim(text)).value != "")
              ==> r == hook.run(Trim(text)).value
    ensures (hook.Hook? && !(hook.run(Trim(text)).Returned? && hook.run(Trim(text)).value != ""))
              ==> r == Trim(text)
    ensures Trim(text) != "" ==> r != ""
  {
    var t := Trim(text);
    match hook
    case NoHook => t
    case Hook(run) =>
      match run(t)
      case Threw => t
      case Returned(v) => if v != "" then v else t
  }

  /**
   * The chunk list: fixed-size pieces that join back to the text, each at
   * most 1900 characters; an empty text is sent as one empty chunk.
   */
  function Chunks(text: string): (r: seq<string>)
    ensures Concat(r) == text
    ensures forall i :: 0 <= i < |r| ==> |r[i]| <= DiscordChunk
    ensures |r| >= 1
    ensures text == "" ==> r == [""]
    ensures text != "" ==> Bounded(r, DiscordChunk)
  {
    if text == "" then
      assert Concat([""]) == "" + Concat([]);
      [""]
    else
      var r := Split(text, DiscordChunk);
      assert |r| >= 1 by {
        assert Concat([]) == [];
      }
      r
  }

  /** What the pipeline sends: the final text and its chunks, in order. */
  datatype Delivery = Delivery(text: string, chunks: seq<string>)

  /**
   * `nonstream_progressive_reply`. `finishedInTime` says whether the full
   * call beat its hard deadline. An exception the retry loop does not catch
   * propagates to the caller.
   */
  function Reply(cfg: Config, msgs: seq<Message>, script: seq<Outcome>, finishedInTime: bool, hook: Hook)
    : (r: Result<Delivery, ErrorKind>)
    ensures r.Failure? ==> finishedInTime && r.error == Other
    ensures r.Success? ==> r.value.text != "" && Concat(r.value.chunks) == r.value.text
    ensures r.Success? ==> Bounded(r.value.chunks, DiscordChunk)
    ensures !finishedInTime ==> r == Success(Delivery(Postprocess(TimeoutText, hook), Chunks(Postprocess(TimeoutText, hook))))
    ensures finishedInTime ==> (r.Failure? <==> FullCall(MakePlan(cfg, msgs), msgs, script).result.Failure?)
    ensures finishedInTime && FullCall(MakePlan(cfg, msgs), msgs, script).result.Success? ==>
              r.Success? && r.value.text == Postprocess(FullCall(MakePlan(cfg, msgs), msgs, script).result.value, hook)
  {
    var flow := FullCall(MakePlan(cfg, msgs), msgs, script);
    if finishedInTime && flow.result.Failure? then
      assert !Caught(flow.result.error) by { EscapedUncaught(MakePlan(cfg, msgs), msgs, script, 0, 0); }
      Failure(flow.result.error)
    else
      var raw := if finishedInTime then flow.result.value else TimeoutText;
      assert Trim(raw) != "" by {
        assert raw != "" && Unpadded(raw) by {
          assert Unpadded(TimeoutText) by { assert TimeoutText[0] == '魔'; }
        }
        TrimUnpadded(raw);
      }
      var text := Postprocess(raw, hook);
      Success(Delivery(text, Chunks(text)))
  }

  /** The only exception that escapes the full call is one outside the caught set. */
  lemma EscapedUncaught(p: Plan, msgs: seq<Message>, script: seq<Outcome>, attempt: nat, n: nat)
    requires attempt <= p.tries
    ensures Attempts(p, msgs, script, attempt, n).result.Failure? ==>
              !Caught(Attempts(p, msgs, script, attempt, n).result.error)
  {
    AttemptsTraced(p, msgs, script, attempt, n);
  }

  /**
   * A reply fails exactly with the exception of the last call the full call
   * made, and only when that exception is outside the caught set.
   */
  lemma ReplyFailureEscaped(cfg: Config, msgs: seq<Message>, script: seq<Outcome>, hook: Hook)
    ensures var r, calls := Reply(cfg, msgs, script, true, hook), FullCall(MakePlan(cfg, msgs), msgs, script).calls;
      r.Failure? ==> Escapes(CallAt(script, |calls| - 1)) && r.error == CallAt(script, |calls| - 1).error
  {
  }
}
