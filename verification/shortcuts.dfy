/**
 * Canned replies to short chit-chat (thanks, lol, good morning, good night),
 * answered without calling the model. Each anchored pattern is written out as
 * the set of strings it matches.
 */
module Shortcuts {
  import opened Wrappers
  import opened Strings

  /** Texts longer than this (after stripping) are never short-cut. */
  const MaxShortcutLen: nat := 16

  /** `re.I` for a pattern letter: ASCII case plus Unicode's long s and Kelvin sign. */
  predicate CharMatchesCaseless(c: char, p: char) {
    || LowerChar(c) == p
    || (p == 's' && c == '\U{17F}')
    || (p == 'k' && c == '\U{212A}')
  }

  predicate CaselessEquals(s: string, p: string) {
    |s| == |p| && forall i :: 0 <= i < |s| ==> CharMatchesCaseless(s[i], p[i])
  }

  predicate IsBang(c: char) {
    c == '!' || c == '！'
  }

  /** `ありがと(う|ー)?|thx|thanks` under `re.I`. */
  predicate ThanksWord(w: string) {
    || w == "ありがと" || w == "ありがとう" || w == "ありがとー"
    || CaselessEquals(w, "thx") || CaselessEquals(w, "thanks")
  }

  /** `^(ありがと(う|ー)?|thx|thanks)[!！]*$`, case-insensitive. */
  predicate IsThanks(t: string) {
    exists n :: 0 <= n <= |t| && ThanksWord(t[..n]) && AllBangs(t, n)
  }

  predicate AllBangs(t: string, from: nat) {
    forall i :: from <= i < |t| ==> IsBang(t[i])
  }

  /** `^(草|w+)$`, case-sensitive. */
  predicate IsLaugh(t: string) {
    t == "草" || (|t| > 0 && forall i :: 0 <= i < |t| ==> t[i] == 'w')
  }

  /** `^(おはよ|おはよう)$`. */
  predicate IsMorning(t: string) {
    t == "おはよ" || t == "おはよう"
  }

  /** `^(おやすみ|寝る)$`. */
  predicate IsNight(t: string) {
    t == "おやすみ" || t == "寝る"
  }

  datatype Pattern = Thanks | Laugh | Morning | Night

  predicate Matches(p: Pattern, t: string) {
    match p
    case Thanks => IsThanks(t)
    case Laugh => IsLaugh(t)
    case Morning => IsMorning(t)
    case Night => IsNight(t)
  }

  /** `PATTERNS`: each pattern with its reply, tried in this order. */
  const Patterns: seq<(Pattern, string)> := [
    (Thanks, "どういたしまして。"),
    (Laugh, "草"),
    (Morning, "おはよう。"),
    (Night, "おやすみ。")
  ]

  /**
   * The loop over the patterns: the reply of the first one that matches,
   * `None` when none does.
   */
  function FirstMatch(pats: seq<(Pattern, string)>, t: string): (r: Option<string>)
    ensures r.Some? <==> exists k :: 0 <= k < |pats| && Matches(pats[k].0, t)
    ensures r.Some? ==> exists k :: 0 <= k < |pats| && Matches(pats[k].0, t) && r.value == pats[k].1
                                    && forall j :: 0 <= j < k ==> !Matches(pats[j].0, t)
    decreases |pats|
  {
    if |pats| == 0 then None
    else if Matches(pats[0].0, t) then Some(pats[0].1)
    else
      var r := FirstMatch(pats[1..], t);
      assert forall k :: 1 <= k < |pats| ==> pats[k] == pats[1..][k - 1];
      r
  }

  /** `shortcut_reply`: the guards, then the first matching pattern. */
  function ShortcutReply(enabled: bool, text: string): (r: Option<string>)
    ensures !enabled ==> r == None
    ensures |Trim(text)| > MaxShortcutLen ==> r == None
    ensures Contains(Trim(text), "?") || Contains(Trim(text), "？") ==> r == None
  {
    if !enabled then None
    else
      var t := Trim(text);
      if |t| > MaxShortcutLen then None
      else if Contains(t, "?") || Contains(t, "？") then None
      else FirstMatch(Patterns, t)
  }

  /** The four canned replies. */
  const Replies: seq<string> := ["どういたしまして。", "草", "おはよう。", "おやすみ。"]

  /** Whatever the text, the result is one of the canned replies or nothing. */
  lemma ShortcutReplyCanned(enabled: bool, text: string)
    ensures ShortcutReply(enabled, text).Some? ==> ShortcutReply(enabled, text).value in Replies
  {
    FirstMatchCanned(Trim(text));
  }

  /** Whatever pattern matches first, its reply is one of the canned replies. */
  lemma FirstMatchCanned(t: string)
    ensures FirstMatch(Patterns, t).Some? ==> FirstMatch(Patterns, t).value in Replies
  {
    var r := FirstMatch(Patterns, t);
    if r.Some? {
      var k :| 0 <= k < |Patterns| && Matches(Patterns[k].0, t) && r.value == Patterns[k].1
               && forall j :: 0 <= j < k ==> !Matches(Patterns[j].0, t);
      assert r.value == Replies[k];
    }
  }

  /** The first character a thanks word can start with. */
  lemma ThanksStart(t: string)
    requires IsThanks(t)
    ensures |t| > 0 && (t[0] == 'あ' || t[0] == 't' || t[0] == 'T')
  {
    var n :| 0 <= n <= |t| && ThanksWord(t[..n]) && AllBangs(t, n);
    var w := t[..n];
    assert w[0] == t[0];
    if CaselessEquals(w, "thx") || CaselessEquals(w, "thanks") {
      assert CharMatchesCaseless(w[0], 't');
    }
  }

  /** No text matches two patterns, so the order of `PATTERNS` never matters. */
  lemma PatternsDisjoint(t: string, a: nat, b: nat)
    requires a < b < |Patterns|
    ensures !(Matches(Patterns[a].0, t) && Matches(Patterns[b].0, t))
  {
    assert IsLaugh(t) && t != "草" ==> t[0] == 'w';
    if a == 0 && Matches(Patterns[a].0, t) {
      ThanksStart(t);
    }
  }

  /**
   * A short, question-free text that matches a pattern gets exactly that
   * pattern's reply.
   */
  lemma ShortcutReplyMatches(text: string, k: nat)
    requires k < |Patterns|
    requires |Trim(text)| <= MaxShortcutLen
    requires !Contains(Trim(text), "?") && !Contains(Trim(text), "？")
    requires Matches(Patterns[k].0, Trim(text))
    ensures ShortcutReply(true, text) == Some(Patterns[k].1)
  {
    var t := Trim(text);
    var r := FirstMatch(Patterns, t);
    var j :| 0 <= j < |Patterns| && Matches(Patterns[j].0, t) && r.value == Patterns[j].1
             && forall i :: 0 <= i < j ==> !Matches(Patterns[i].0, t);
    if j < k {
      PatternsDisjoint(t, j, k);
    }
  }

  /** A short, question-free text that matches nothing gets no canned reply. */
  lemma ShortcutReplyNoMatch(text: string)
    requires forall k :: 0 <= k < |Patterns| ==> !Matches(Patterns[k].0, Trim(text))
    ensures ShortcutReply(true, text) == None
  {
  }

  /**
   * "thanks" in any capitalisation followed by a few exclamation marks
   * (half- or full-width) is thanked.
   */
  lemma ThanksAnyCase(w: string, bangs: string)
    requires CaselessEquals(w, "thanks")
    requires |bangs| <= MaxShortcutLen - 6
    requires forall i :: 0 <= i < |bangs| ==> IsBang(bangs[i])
    ensures ShortcutReply(true, w + bangs) == Some("どういたしまして。")
  {
    var t := w + bangs;
    ThanksAnyCaseChars(w, bangs);
    LacksChar(t, '?');
    LacksChar(t, '？');
    TrimUnpadded(t);
    assert t[..6] == w;
    assert AllBangs(t, 6) by {
      forall i | 6 <= i < |t| ensures IsBang(t[i]) {
        assert t[i] == bangs[i - 6];
      }
    }
    assert Matches(Patterns[0].0, t);
    ShortcutReplyMatches(t, 0);
  }

  /** Every character of such a text is a letter of "thanks" or a bang. */
  lemma ThanksAnyCaseChars(w: string, bangs: string)
    requires CaselessEquals(w, "thanks")
    requires forall i :: 0 <= i < |bangs| ==> IsBang(bangs[i])
    ensures forall i :: 0 <= i < |w + bangs| ==> (w + bangs)[i] != '?' && (w + bangs)[i] != '？'
    ensures Unpadded(w + bangs)
  {
    var t := w + bangs;
    forall i | 0 <= i < |t| ensures t[i] != '?' && t[i] != '？' && !IsSpace(t[i]) {
      if i < |w| {
        assert t[i] == w[i];
        assert CharMatchesCaseless(w[i], "thanks"[i]);
      } else {
        assert t[i] == bangs[i - |w|];
      }
    }
  }
}
