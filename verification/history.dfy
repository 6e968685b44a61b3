/**
 * The per-channel conversation history: a map from channel id to a bounded
 * FIFO of recent turns. Every operation is one atomic transition of the store
 * (the source serialises them with a single lock).
 */
module History {
  import opened Strings
  import opened Chat

  /** The default number of user/assistant round trips kept per channel. */
  const DefaultMaxTurns: nat := 6

  /** Stored instead of an empty text. */
  const Placeholder := "…"

  /** A stored turn: history holds plain text only. */
  datatype Turn = Turn(role: Role, content: string)

  datatype Store = Store(maxTurns: nat, channels: map<string, seq<Turn>>)

  /** A fresh store. */
  function NewStore(maxTurns: nat): Store {
    Store(maxTurns, map[])
  }

  /** Each channel keeps at most one user and one assistant turn per round trip. */
  function Capacity(st: Store): nat {
    2 * st.maxTurns
  }

  /** The channel's turns, oldest first; a channel without a record has none. */
  function Turns(st: Store, cid: string): seq<Turn> {
    if cid in st.channels then st.channels[cid] else []
  }

  /** Every channel's deque respects the bound. */
  ghost predicate Valid(st: Store) {
    forall cid :: cid in st.channels ==> |st.channels[cid]| <= Capacity(st)
  }

  /** `st` and `st'` agree on every channel other than `cid`. */
  ghost predicate OthersUnchanged(st: Store, st': Store, cid: string) {
    && st'.maxTurns == st.maxTurns
    && forall c :: c != cid ==>
         && (c in st'.channels <==> c in st.channels)
         && (c in st.channels ==> st'.channels[c] == st.channels[c])
  }

  /** `_dq`: the channel's record, created empty on first use. */
  function Touch(st: Store, cid: string): (st': Store)
    ensures cid in st'.channels && st'.channels[cid] == Turns(st, cid)
    ensures OthersUnchanged(st, st', cid)
  {
    if cid in st.channels then st else st.(channels := st.channels[cid := []])
  }

  /**
   * The eviction loop `while len(dq) > cap: dq.popleft()`: the newest
   * `min(len, cap)` turns, in order.
   */
  function EvictOldest(dq: seq<Turn>, cap: nat): (r: seq<Turn>)
    ensures |r| == if |dq| <= cap then |dq| else cap
    ensures r == dq[|dq| - |r|..]
    decreases |dq|
  {
    if |dq| > cap then EvictOldest(dq[1..], cap) else dq
  }

  /** The last `min(|s|, k)` elements of `s`. */
  function Newest(s: seq<Turn>, k: nat): seq<Turn> {
    if |s| <= k then s else s[|s| - k..]
  }

  /** `_append`: push the turn at the right end, then evict from the left. */
  function Append(st: Store, cid: string, turn: Turn): (st': Store)
    ensures Turns(st', cid) == Newest(Turns(st, cid) + [turn], Capacity(st))
    ensures |Turns(st', cid)| <= Capacity(st)
    ensures cid in st'.channels
    ensures OthersUnchanged(st, st', cid)
  {
    var dq := Touch(st, cid).channels[cid] + [turn];
    st.(channels := st.channels[cid := EvictOldest(dq, Capacity(st))])
  }

  /** Appending keeps every channel within its bound. */
  lemma AppendValid(st: Store, cid: string, turn: Turn)
    requires Valid(st)
    ensures Valid(Append(st, cid, turn))
  {
  }

  /** The note recording how many images came with a message: `" [画像xN]"`. */
  function ImageNote(count: nat): string {
    NotePrefix + NatToString(count) + "]"
  }

  const NotePrefix := " [画像x"

  /** The image count can be read back from the note's digits. */
  lemma ImageNoteRoundTrip(count: nat)
    ensures |ImageNote(count)| > |NotePrefix| + 1
    ensures var digits := ImageNote(count)[|NotePrefix| .. |ImageNote(count)| - 1];
      && (forall i :: 0 <= i < |digits| ==> IsDigit(digits[i]))
      && ParseDigits(digits) == count
  {
    var n := NatToString(count);
    var note := ImageNote(count);
    assert note[|NotePrefix| .. |note| - 1] == n;
    NatToStringRoundTrip(count);
  }

  /**
   * The text `append_user` stores: the stripped text, followed by the image
   * note when there are images; the placeholder when that is empty.
   */
  function UserText(text: string, imageUrls: seq<string>): (r: string)
    ensures r != ""
    ensures |imageUrls| == 0 && Trim(text) == "" ==> r == Placeholder
    ensures |imageUrls| == 0 && Trim(text) != "" ==> r == Trim(text)
    ensures |imageUrls| > 0 ==> r == Trim(text) + ImageNote(|imageUrls|)
  {
    var t := Trim(text);
    var t' := if |imageUrls| > 0 then (var note := ImageNote(|imageUrls|); if t != "" then t + note else note) else t;
    if t' == "" then Placeholder else t'
  }

  /** The text `append_assistant` stores: stripped, or the placeholder. */
  function AssistantText(text: string): (r: string)
    ensures r != ""
    ensures Trim(text) == "" ==> r == Placeholder
    ensures Trim(text) != "" ==> r == Trim(text)
  {
    var t := Trim(text);
    if t == "" then Placeholder else t
  }

  /** `append_user`: the normalised user text becomes the channel's newest turn. */
  function AppendUser(st: Store, cid: string, text: string, imageUrls: seq<string>): (st': Store)
    ensures Turns(st', cid) == Newest(Turns(st, cid) + [Turn(User, UserText(text, imageUrls))], Capacity(st))
    ensures Capacity(st) > 0 ==>
              |Turns(st', cid)| > 0 && Turns(st', cid)[|Turns(st', cid)| - 1] == Turn(User, UserText(text, imageUrls))
    ensures OthersUnchanged(st, st', cid)
  {
    Append(st, cid, Turn(User, UserText(text, imageUrls)))
  }

  /** `append_assistant`: the normalised reply becomes the channel's newest turn. */
  function AppendAssistant(st: Store, cid: string, text: string): (st': Store)
    ensures Turns(st', cid) == Newest(Turns(st, cid) + [Turn(Assistant, AssistantText(text))], Capacity(st))
    ensures Capacity(st) > 0 ==>
              |Turns(st', cid)| > 0 && Turns(st', cid)[|Turns(st', cid)| - 1] == Turn(Assistant, AssistantText(text))
    ensures OthersUnchanged(st, st', cid)
  {
    Append(st, cid, Turn(Assistant, AssistantText(text)))
  }

  function TurnMessage(t: Turn): Message {
    Message(t.role, Text(t.content))
  }

  /**
   * `build_messages`: the system prompt, the channel's stored turns in order,
   * then the current (possibly multimodal) user content. Reading the record
   * through `_dq` creates it when missing, so the store is returned too.
   */
  function BuildMessages(st: Store, systemPrompt: string, cid: string, current: seq<Part>)
    : (r: (Store, seq<Message>))
    ensures r.0 == Touch(st, cid)
    ensures |r.1| == |Turns(st, cid)| + 2
    ensures r.1[0] == Message(System, Text(systemPrompt))
    ensures forall i :: 0 <= i < |Turns(st, cid)| ==> r.1[i + 1] == TurnMessage(Turns(st, cid)[i])
    ensures r.1[|r.1| - 1] == Message(User, Parts(current))
  {
    var st' := Touch(st, cid);
    var past := st'.channels[cid];
    var middle := seq(|past|, i requires 0 <= i < |past| => TurnMessage(past[i]));
    (st', [Message(System, Text(systemPrompt))] + middle + [Message(User, Parts(current))])
  }

  /** `reset`: drop the channel's record; other channels are untouched. */
  function Reset(st: Store, cid: string): (st': Store)
    ensures cid !in st'.channels
    ensures OthersUnchanged(st, st', cid)
  {
    st.(channels := st.channels - {cid})
  }

  /** Resetting twice is the same as resetting once. */
  lemma ResetIdempotent(st: Store, cid: string)
    ensures Reset(Reset(st, cid), cid) == Reset(st, cid)
  {
  }

  /** The operations, for reasoning about a whole run of them. */
  datatype Op =
    | UserSaid(cid: string, text: string, imageUrls: seq<string>)
    | AssistantSaid(cid: string, text: string)
    | Read(cid: string, systemPrompt: string, current: seq<Part>)
    | Cleared(cid: string)

  function Step(st: Store, op: Op): Store {
    match op
    case UserSaid(c, text, urls) => AppendUser(st, c, text, urls)
    case AssistantSaid(c, text) => AppendAssistant(st, c, text)
    case Read(c, sys, cur) => BuildMessages(st, sys, c, cur).0
    case Cleared(c) => Reset(st, c)
  }

  /** The store after the operations, applied oldest first. */
  function Run(st: Store, ops: seq<Op>): Store
    decreases |ops|
  {
    if |ops| == 0 then st else Step(Run(st, ops[..|ops| - 1]), ops[|ops| - 1])
  }

  /** Every turn appended to `cid` since its last reset, oldest first. */
  function Log(ops: seq<Op>, cid: string): seq<Turn>
    decreases |ops|
  {
    if |ops| == 0 then [] else LogStep(Log(ops[..|ops| - 1], cid), ops[|ops| - 1], cid)
  }

  /** What one operation does to the log of `cid`. */
  function LogStep(log: seq<Turn>, op: Op, cid: string): seq<Turn> {
    match op
    case UserSaid(c, text, urls) => if c == cid then log + [Turn(User, UserText(text, urls))] else log
    case AssistantSaid(c, text) => if c == cid then log + [Turn(Assistant, AssistantText(text))] else log
    case Read(_, _, _) => log
    case Cleared(c) => if c == cid then [] else log
  }

  /** Keeping the newest `k` before or after adding a turn gives the same newest `k`. */
  lemma NewestAppend(log: seq<Turn>, t: Turn, k: nat)
    ensures Newest(Newest(log, k) + [t], k) == Newest(log + [t], k)
  {
    if |log| >= k {
      var dq := log[|log| - k..] + [t];
      assert Newest(log, k) == log[|log| - k..];
      if k > 0 {
        assert Newest(dq, k) == dq[1..];
        assert dq[1..] == (log + [t])[|log| + 1 - k..];
      } else {
        assert Newest(dq, k) == [];
      }
    }
  }

  /** Appending to any channel keeps `cid` holding the newest turns of its log. */
  lemma AppendKeepsNewest(st: Store, c: string, turn: Turn, cid: string, log: seq<Turn>)
    requires Turns(st, cid) == Newest(log, Capacity(st))
    ensures Append(st, c, turn).maxTurns == st.maxTurns
    ensures Turns(Append(st, c, turn), cid) == Newest(if c == cid then log + [turn] else log, Capacity(st))
  {
    if c == cid {
      NewestAppend(log, turn, Capacity(st));
    }
  }

  /** One operation keeps "the channel holds the newest turns of its log". */
  lemma StepKeepsNewest(st: Store, op: Op, cid: string, log: seq<Turn>)
    requires Turns(st, cid) == Newest(log, Capacity(st))
    ensures Step(st, op).maxTurns == st.maxTurns
    ensures Turns(Step(st, op), cid) == Newest(LogStep(log, op, cid), Capacity(st))
  {
    match op
    case UserSaid(c, text, urls) =>
      AppendKeepsNewest(st, c, Turn(User, UserText(text, urls)), cid, log);
    case AssistantSaid(c, text) =>
      AppendKeepsNewest(st, c, Turn(Assistant, AssistantText(text)), cid, log);
    case Read(c, sys, cur) =>
      assert Step(st, op) == Touch(st, c);
    case Cleared(c) =>
      assert Step(st, op) == Reset(st, c);
  }

  /**
   * FIFO eviction: after any run of operations from an empty store, each
   * channel holds exactly the newest `2 * maxTurns` turns appended to it
   * since its last reset, in order, so never more than the bound.
   */
  lemma {:induction false} RunKeepsNewest(maxTurns: nat, ops: seq<Op>, cid: string)
    ensures Run(NewStore(maxTurns), ops).maxTurns == maxTurns
    ensures Turns(Run(NewStore(maxTurns), ops), cid) == Newest(Log(ops, cid), 2 * maxTurns)
    decreases |ops|
  {
    if |ops| > 0 {
      var prefix := ops[..|ops| - 1];
      RunKeepsNewest(maxTurns, prefix, cid);
      StepKeepsNewest(Run(NewStore(maxTurns), prefix), ops[|ops| - 1], cid, Log(prefix, cid));
    }
  }
}
