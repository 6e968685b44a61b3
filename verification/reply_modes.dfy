/**
 * Picks the completion-token ceiling for a reply: a larger one when the
 * request text asks for something long (code, logs, full text, ...).
 */
module ReplyModes {
  import opened Strings

  /** The alternatives of the heaviness regex, in the order they are listed. */
  const HeavyKeywords: seq<string> :=
    ["長文", "詳細", "コード", "全文", "README", "実装", "エラー解析", "stacktrace", "ログ"]

  /** The two ceilings; both come from the environment, with these defaults. */
  datatype Limits = Limits(defaultMaxOut: int, heavyMaxOut: int)

  const DefaultLimits := Limits(384, 896)

  /** `detect_heavy_task`: some keyword occurs in the text (a missing text is ""). */
  predicate IsHeavy(text: string) {
    exists k :: 0 <= k < |HeavyKeywords| && Contains(text, HeavyKeywords[k])
  }

  /**
   * The regex search as a scan: every start position, every alternative.
   * It finds a match exactly when some keyword is a substring.
   */
  method DetectHeavy(text: string) returns (found: bool)
    ensures found <==> IsHeavy(text)
  {
    var i := 0;
    while i <= |text|
      invariant 0 <= i <= |text| + 1
      invariant forall p, k :: 0 <= p < i && 0 <= k < |HeavyKeywords| ==> !OccursAt(text, HeavyKeywords[k], p)
    {
      var k := 0;
      while k < |HeavyKeywords|
        invariant 0 <= k <= |HeavyKeywords|
        invariant forall k' :: 0 <= k' < k ==> !OccursAt(text, HeavyKeywords[k'], i)
      {
        var w := HeavyKeywords[k];
        if i + |w| <= |text| && text[i..i + |w|] == w {
          assert OccursAt(text, w, i);
          return true;
        }
        k := k + 1;
      }
      i := i + 1;
    }
    return false;
  }

  /** Nothing in an empty (or missing) text is heavy. */
  lemma EmptyNotHeavy()
    ensures !IsHeavy("")
  {
    forall k | 0 <= k < |HeavyKeywords| ensures !Contains("", HeavyKeywords[k]) {
      assert |HeavyKeywords[k]| > 0;
    }
  }

  /** Adding text on either side never makes a heavy request light. */
  lemma HeavyStaysHeavy(text: string, before: string, after: string)
    requires IsHeavy(text)
    ensures IsHeavy(before + text + after)
  {
    var k :| 0 <= k < |HeavyKeywords| && Contains(text, HeavyKeywords[k]);
    ContainsExtended(text, HeavyKeywords[k], before, after);
  }

  /** `choose_max_out`: the heavy ceiling for heavy text, otherwise the default. */
  function ChooseMaxOut(text: string, limits: Limits): (r: int)
    ensures r == limits.defaultMaxOut || r == limits.heavyMaxOut
  {
    if IsHeavy(text) then limits.heavyMaxOut else limits.defaultMaxOut
  }

  /** With distinct ceilings, the ceiling tells whether the text was heavy. */
  lemma ChooseMaxOutDecides(text: string, limits: Limits)
    requires limits.defaultMaxOut != limits.heavyMaxOut
    ensures ChooseMaxOut(text, limits) == limits.heavyMaxOut <==> IsHeavy(text)
  {
  }

  /** A request naming a stack trace gets the heavy ceiling. */
  lemma StacktraceIsHeavy(before: string, after: string)
    ensures ChooseMaxOut(before + "stacktrace" + after, DefaultLimits) == 896
  {
    assert OccursAt("stacktrace", HeavyKeywords[7], 0);
    HeavyStaysHeavy("stacktrace", before, after);
  }
}
