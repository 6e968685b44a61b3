/**
 * Fixed-size splitting of a reply before it is sent to Discord, which caps a
 * message's length: `[text[i:i + n] for i in range(0, len(text), n)]`, and
 * its inverse, joining.
 */
module Chunking {

  /** The Discord message size the bot keeps under, with a safety margin. */
  const DiscordChunk: nat := 1900

  /** `"".join(pieces)`. */
  function Concat(pieces: seq<string>): string {
    if |pieces| == 0 then [] else pieces[0] + Concat(pieces[1..])
  }

  /** Joining two lists of pieces joins their joins. */
  lemma {:induction false} ConcatAppend(a: seq<string>, b: seq<string>)
    ensures Concat(a + b) == Concat(a) + Concat(b)
  {
    if |a| > 0 {
      assert (a + b)[1..] == a[1..] + b;
      ConcatAppend(a[1..], b);
    } else {
      assert a + b == b;
    }
  }

  /** Every piece is non-empty and at most `size` long. */
  ghost predicate Bounded(pieces: seq<string>, size: nat) {
    forall i :: 0 <= i < |pieces| ==> 0 < |pieces[i]| <= size
  }

  /**
   * The pieces `s[i:i + n], s[i + n:i + 2n], ...` of the suffix from offset
   * `i`: they join back to that suffix, and each is non-empty and at most
   * `n` long.
   */
  function SplitFrom(s: string, i: nat, n: nat): (r: seq<string>)
    requires n > 0 && i <= |s|
    ensures Concat(r) == s[i..]
    ensures Bounded(r, n)
    decreases |s| - i
  {
    if i == |s| then []
    else
      var j := if i + n <= |s| then i + n else |s|;
      var rest := SplitFrom(s, j, n);
      assert ([s[i..j]] + rest)[1..] == rest;
      assert s[i..j] + s[j..] == s[i..];
      [s[i..j]] + rest
  }

  /** `[s[k:k + n] for k in range(0, len(s), n)]`. */
  function Split(s: string, n: nat): (r: seq<string>)
    requires n > 0
    ensures Concat(r) == s
    ensures Bounded(r, n)
  {
    assert s[0..] == s;
    SplitFrom(s, 0, n)
  }

  /** Only the last piece can be shorter than `n`. */
  lemma {:induction false} SplitFullPieces(s: string, i: nat, n: nat)
    requires n > 0 && i <= |s|
    ensures forall k :: 0 <= k < |SplitFrom(s, i, n)| - 1 ==> |SplitFrom(s, i, n)[k]| == n
    decreases |s| - i
  {
    var r := SplitFrom(s, i, n);
    if i < |s| && i + n < |s| {
      var rest := SplitFrom(s, i + n, n);
      assert r == [s[i..i + n]] + rest;
      SplitFullPieces(s, i + n, n);
      forall k | 1 <= k < |r| - 1 ensures |r[k]| == n {
        assert r[k] == rest[k - 1];
      }
    } else if i < |s| {
      assert SplitFrom(s, |s|, n) == [];
    }
  }

  /** Splitting text that is already short enough yields the text alone. */
  lemma SplitShort(s: string, n: nat)
    requires 0 < |s| <= n
    ensures Split(s, n) == [s]
  {
    assert s[0..|s|] == s;
  }
}
