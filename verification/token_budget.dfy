/**
 * Fitting a prompt into a token budget: estimate the prompt's cost, keep up
 * to two system messages at the front, delete the oldest other messages, and
 * as a last resort cut the final message down to its tail.
 *
 * Only the character-based estimate is modelled (the exact tokenizer is an
 * optional library). Message content is a string or a list of parts; like
 * the Python code, the estimate and the cut use `len(content)` either way.
 */
module TokenBudget {
  import opened Chat

  /** The default prompt budget. */
  const MaxPromptTokens: int := 3000

  /** At most this many system messages are moved to the front. */
  const MaxHead: nat := 2

  /** The last message is cut only while it is at least this long. */
  const TruncationFloor: nat := 200

  /** Per-message overhead added by the estimate. */
  const MessageOverhead: nat := 4

  /** `max(1, ceil(len(content) / 4))`: the least `r >= 1` with `4 * r >= len`. */
  function CountTokens(c: Content): (r: nat)
    ensures r >= 1
    ensures Len(c) <= 4 * r
    ensures r == 1 || 4 * (r - 1) < Len(c)
  {
    if Len(c) <= 4 then 1 else (Len(c) + 3) / 4
  }

  /** A longer content never has a smaller estimate. */
  lemma CountTokensMonotone(a: Content, b: Content)
    requires Len(a) <= Len(b)
    ensures CountTokens(a) <= CountTokens(b)
  {
  }

  /** The sum over the messages of `count_tokens(content) + 4`. */
  function MessagesTokenLen(msgs: seq<Message>): (r: nat)
    ensures r >= 5 * |msgs|
  {
    if |msgs| == 0 then 0
    else CountTokens(msgs[0].content) + MessageOverhead + MessagesTokenLen(msgs[1..])
  }

  /** The estimate of a concatenation is the sum of the estimates. */
  lemma {:induction false} MessagesTokenLenAppend(a: seq<Message>, b: seq<Message>)
    ensures MessagesTokenLen(a + b) == MessagesTokenLen(a) + MessagesTokenLen(b)
  {
    if |a| == 0 {
      assert a + b == b;
    } else {
      assert (a + b)[0] == a[0];
      assert (a + b)[1..] == a[1..] + b;
      MessagesTokenLenAppend(a[1..], b);
    }
  }

  /** The system messages of `msgs`, in order. */
  function Systems(msgs: seq<Message>): (r: seq<Message>)
    ensures |r| <= |msgs|
  {
    if |msgs| == 0 then []
    else (if msgs[0].role == System then [msgs[0]] else []) + Systems(msgs[1..])
  }

  /** The messages of `msgs` that are not system messages, in order. */
  function NonSystems(msgs: seq<Message>): (r: seq<Message>)
    ensures |r| <= |msgs|
  {
    if |msgs| == 0 then []
    else (if msgs[0].role != System then [msgs[0]] else []) + NonSystems(msgs[1..])
  }

  /** The system messages of a concatenation are those of each part, in order. */
  lemma {:induction false} SystemsAppend(a: seq<Message>, b: seq<Message>)
    ensures Systems(a + b) == Systems(a) + Systems(b)
  {
    if |a| == 0 {
      assert a + b == b;
    } else {
      var x := if a[0].role == System then [a[0]] else [];
      assert (a + b)[0] == a[0];
      assert (a + b)[1..] == a[1..] + b;
      SystemsAppend(a[1..], b);
      assert Systems(a + b) == x + (Systems(a[1..]) + Systems(b));
      assert Systems(a) == x + Systems(a[1..]);
    }
  }

  /** `a` can be obtained from `b` by deleting elements. */
  ghost predicate IsSubseq<T>(a: seq<T>, b: seq<T>)
    decreases |b|
  {
    || |a| == 0
    || (|b| > 0 && ((a[0] == b[0] && IsSubseq(a[1..], b[1..])) || IsSubseq(a, b[1..])))
  }

  /** Every list is a subsequence of itself. */
  lemma {:induction false} IsSubseqRefl<T>(a: seq<T>)
    ensures IsSubseq(a, a)
    decreases |a|
  {
    if |a| > 0 {
      IsSubseqRefl(a[1..]);
    }
  }

  /** A subsequence of a subsequence is a subsequence. */
  lemma {:induction false} IsSubseqTrans<T>(a: seq<T>, b: seq<T>, c: seq<T>)
    requires IsSubseq(a, b) && IsSubseq(b, c)
    ensures IsSubseq(a, c)
    decreases |c|
  {
    if |a| > 0 {
      assert |b| > 0;
      if IsSubseq(b, c[1..]) {
        IsSubseqTrans(a, b, c[1..]);
      } else {
        assert b[0] == c[0] && IsSubseq(b[1..], c[1..]);
        if a[0] == b[0] && IsSubseq(a[1..], b[1..]) {
          IsSubseqTrans(a[1..], b[1..], c[1..]);
        } else {
          IsSubseqTrans(a, b[1..], c[1..]);
        }
      }
    }
  }

  /** Deleting the element at `i` leaves a subsequence. */
  lemma {:induction false} RemoveAtIsSubseq<T>(q: seq<T>, i: nat)
    requires i < |q|
    ensures IsSubseq(q[..i] + q[i + 1..], q)
    decreases i
  {
    if i == 0 {
      assert q[..0] + q[1..] == q[1..];
      IsSubseqRefl(q[1..]);
    } else {
      var d := q[..i] + q[i + 1..];
      assert d[0] == q[0];
      assert d[1..] == q[1..][..i - 1] + q[1..][i..];
      RemoveAtIsSubseq(q[1..], i - 1);
    }
  }

  /**
   * The loop that builds `head` and `rest`: each system message goes to the
   * head while the head has room, every other message goes to the rest.
   */
  function Partition(msgs: seq<Message>, room: nat): (r: (seq<Message>, seq<Message>))
    ensures |r.0| + |r.1| == |msgs|
    ensures |r.0| <= room
  {
    if |msgs| == 0 then ([], [])
    else
      var m := msgs[0];
      var toHead := m.role == System && room > 0;
      var sub := Partition(msgs[1..], if toHead then room - 1 else room);
      if toHead then ([m] + sub.0, sub.1) else (sub.0, [m] + sub.1)
  }

  /** The head is the first `min(room, #system)` system messages, in order. */
  lemma {:induction false} PartitionHead(msgs: seq<Message>, room: nat)
    ensures var h := Partition(msgs, room).0;
      && |h| == (if room < |Systems(msgs)| then room else |Systems(msgs)|)
      && h == Systems(msgs)[..|h|]
  {
    if |msgs| > 0 {
      var m := msgs[0];
      var toHead := m.role == System && room > 0;
      PartitionHead(msgs[1..], if toHead then room - 1 else room);
      var h := Partition(msgs[1..], if toHead then room - 1 else room).0;
      var s1 := Systems(msgs[1..]);
      if m.role == System {
        assert Systems(msgs) == [m] + s1;
        if toHead {
          assert Partition(msgs, room).0 == [m] + h;
          assert ([m] + s1)[..|h| + 1] == [m] + s1[..|h|];
        }
      } else {
        assert Systems(msgs) == s1;
      }
    }
  }

  /**
   * The rest keeps the order of the input, and it holds no system message
   * when the head did not fill up. More precisely, there is a cut point `k`
   * (where the head filled up, or the end): the head is the system messages
   * before `k`, and the rest is the other messages before `k` followed by
   * everything from `k` on, untouched.
   */
  lemma {:induction false} PartitionRest(msgs: seq<Message>, room: nat)
    ensures var (h, t) := Partition(msgs, room);
      && IsSubseq(t, msgs)
      && (|h| < room ==> Systems(t) == [])
      && exists k :: 0 <= k <= |msgs| && h == Systems(msgs[..k]) && t == NonSystems(msgs[..k]) + msgs[k..]
  {
    PartitionCut(msgs, room);
    if |msgs| > 0 {
      var m := msgs[0];
      var toHead := m.role == System && room > 0;
      PartitionRest(msgs[1..], if toHead then room - 1 else room);
      var sub := Partition(msgs[1..], if toHead then room - 1 else room);
      var t := sub.1;
      if toHead {
        assert Partition(msgs, room) == ([m] + sub.0, t);
      } else {
        assert Partition(msgs, room) == (sub.0, [m] + t);
        assert ([m] + t)[0] == m;
        assert ([m] + t)[1..] == t;
      }
    }
  }

  /** Head and rest cut `msgs` at `k`: the system messages before `k`, and the others before `k` then all from `k` on. */
  ghost predicate CutAt(msgs: seq<Message>, k: nat, h: seq<Message>, t: seq<Message>)
    requires k <= |msgs|
  {
    h == Systems(msgs[..k]) && t == NonSystems(msgs[..k]) + msgs[k..]
  }

  /** The cut point of the partition. */
  lemma {:induction false} PartitionCut(msgs: seq<Message>, room: nat)
    ensures exists k :: 0 <= k <= |msgs| && CutAt(msgs, k, Partition(msgs, room).0, Partition(msgs, room).1)
  {
    if room == 0 {
      PartitionZero(msgs);
      assert msgs[..0] == [] && msgs[0..] == msgs;
      assert CutAt(msgs, 0, [], msgs);
    } else if |msgs| == 0 {
      assert msgs[..0] == [] && msgs[0..] == [];
      assert Partition(msgs, room) == ([], []);
      assert Systems([]) == [] && NonSystems([]) == [];
      assert CutAt(msgs, 0, [], []);
    } else {
      var m := msgs[0];
      var toHead := m.role == System;
      var room' := if toHead then room - 1 else room;
      PartitionCut(msgs[1..], room');
      var sub := Partition(msgs[1..], room');
      var k :| 0 <= k <= |msgs[1..]| && CutAt(msgs[1..], k, sub.0, sub.1);
      assert Partition(msgs, room) == if toHead then ([m] + sub.0, sub.1) else (sub.0, [m] + sub.1);
      CutShift(msgs, k);
      assert CutAt(msgs, k + 1, Partition(msgs, room).0, Partition(msgs, room).1);
    }
  }

  /** With no room, everything goes to the rest. */
  lemma {:induction false} PartitionZero(msgs: seq<Message>)
    ensures Partition(msgs, 0) == ([], msgs)
  {
    if |msgs| > 0 {
      PartitionZero(msgs[1..]);
      assert [msgs[0]] + msgs[1..] == msgs;
    }
  }

  /** Moving the cut point past the first message. */
  lemma CutShift(msgs: seq<Message>, k: nat)
    requires k < |msgs|
    ensures var m, pre := msgs[0], msgs[1..][..k];
      && Systems(msgs[..k + 1]) == (if m.role == System then [m] else []) + Systems(pre)
      && NonSystems(msgs[..k + 1]) == (if m.role != System then [m] else []) + NonSystems(pre)
      && msgs[k + 1..] == msgs[1..][k..]
  {
    assert msgs[..k + 1][0] == msgs[0];
    assert msgs[..k + 1][1..] == msgs[1..][..k];
  }

  /** The system messages of the rest are exactly those beyond the head, in order. */
  lemma {:induction false} PartitionRestSystems(msgs: seq<Message>, room: nat)
    ensures var (h, t) := Partition(msgs, room);
      |h| <= |Systems(msgs)| && Systems(t) == Systems(msgs)[|h|..]
  {
    if |msgs| > 0 {
      var m := msgs[0];
      var toHead := m.role == System && room > 0;
      PartitionRestSystems(msgs[1..], if toHead then room - 1 else room);
      var sub := Partition(msgs[1..], if toHead then room - 1 else room);
      var h, t := sub.0, sub.1;
      var s1 := Systems(msgs[1..]);
      assert |h| <= |s1| && Systems(t) == s1[|h|..];
      if m.role == System {
        assert Systems(msgs) == [m] + s1;
        if toHead {
          assert Partition(msgs, room) == ([m] + h, t);
          assert ([m] + s1)[|h| + 1..] == s1[|h|..];
        } else {
          assert Partition(msgs, room) == (h, [m] + t);
          assert |h| == 0;
          ConsSystems([m], t);
        }
      } else {
        assert Systems(msgs) == s1;
        assert Partition(msgs, room) == (h, [m] + t);
        ConsSystems([m], t);
      }
    }
  }

  /** Putting one message in front adds it to the system messages exactly when it is one. */
  lemma ConsSystems(head: seq<Message>, t: seq<Message>)
    requires |head| == 1
    ensures Systems(head + t) == (if head[0].role == System then head else []) + Systems(t)
  {
    assert (head + t)[0] == head[0];
    assert (head + t)[1..] == t;
  }

  /** Head and rest together hold exactly the input's messages. */
  lemma {:induction false} PartitionPermutes(msgs: seq<Message>, room: nat)
    ensures multiset(Partition(msgs, room).0) + multiset(Partition(msgs, room).1) == multiset(msgs)
  {
    if |msgs| > 0 {
      var m := msgs[0];
      var toHead := m.role == System && room > 0;
      PartitionPermutes(msgs[1..], if toHead then room - 1 else room);
      var sub := Partition(msgs[1..], if toHead then room - 1 else room);
      assert msgs == [m] + msgs[1..];
      assert multiset(msgs) == multiset{m} + multiset(msgs[1..]);
      if toHead {
        assert Partition(msgs, room) == ([m] + sub.0, sub.1);
      } else {
        assert Partition(msgs, room) == (sub.0, [m] + sub.1);
      }
    }
  }

  /** `head + rest`: the retained system messages first, then the others in order. */
  function Arrange(msgs: seq<Message>): seq<Message> {
    var parts := Partition(msgs, MaxHead);
    parts.0 + parts.1
  }

  /** Arranging is a rearrangement: the same messages, as a multiset. */
  lemma ArrangePermutes(msgs: seq<Message>)
    ensures multiset(Arrange(msgs)) == multiset(msgs)
  {
    PartitionPermutes(msgs, MaxHead);
  }

  /** Arranging keeps the length, and the system messages stay in their original order. */
  lemma ArrangeKeepsSystems(msgs: seq<Message>)
    ensures |Arrange(msgs)| == |msgs|
    ensures Systems(Arrange(msgs)) == Systems(msgs)
  {
    var (head, rest) := Partition(msgs, MaxHead);
    PartitionRestSystems(msgs, MaxHead);
    PartitionHead(msgs, MaxHead);
    SystemsAppend(head, rest);
    SystemsPrefixAllSystem(msgs, |head|);
    SystemsOfSystems(head);
    var sys := Systems(msgs);
    assert sys == sys[..|head|] + sys[|head|..];
  }

  /** Every element of a prefix of `Systems(msgs)` is a system message. */
  lemma {:induction false} SystemsPrefixAllSystem(msgs: seq<Message>, n: nat)
    requires n <= |Systems(msgs)|
    ensures forall k :: 0 <= k < n ==> Systems(msgs)[k].role == System
  {
    if |msgs| > 0 {
      var s1 := Systems(msgs[1..]);
      if msgs[0].role == System {
        if n > 0 {
          SystemsPrefixAllSystem(msgs[1..], n - 1);
          assert Systems(msgs) == [msgs[0]] + s1;
        }
      } else {
        assert Systems(msgs) == s1;
        SystemsPrefixAllSystem(msgs[1..], n);
      }
    }
  }

  /** Filtering a sequence of system messages keeps all of them. */
  lemma {:induction false} SystemsOfSystems(msgs: seq<Message>)
    requires forall k :: 0 <= k < |msgs| ==> msgs[k].role == System
    ensures Systems(msgs) == msgs
  {
    if |msgs| > 0 {
      SystemsOfSystems(msgs[1..]);
      assert msgs == [msgs[0]] + msgs[1..];
    }
  }

  /**
   * The deletion loop: starting at `i`, delete non-system messages in place
   * (oldest first) while the prompt is over budget, skip system messages,
   * and never touch the last message.
   */
  function DropOldest(p: seq<Message>, i: nat, budget: int): (r: seq<Message>)
    requires i <= |p|
    ensures i <= |r| <= |p|
    ensures |p| > i ==> |r| > i
    decreases |p| - i
  {
    if MessagesTokenLen(p) > budget && i + 1 < |p| then
      if p[i].role != System then DropOldest(p[..i] + p[i + 1..], i, budget)
      else DropOldest(p, i + 1, budget)
    else p
  }

  /** Deletion leaves the messages before `i` and the last message alone. */
  lemma {:induction false} DropOldestKeepsEnds(p: seq<Message>, i: nat, budget: int)
    requires i <= |p|
    ensures var r := DropOldest(p, i, budget);
      r[..i] == p[..i] && (|p| > 0 ==> r[|r| - 1] == p[|p| - 1])
    decreases |p| - i
  {
    if MessagesTokenLen(p) > budget && i + 1 < |p| {
      if p[i].role != System {
        var q := p[..i] + p[i + 1..];
        assert DropOldest(p, i, budget) == DropOldest(q, i, budget);
        DropOldestKeepsEnds(q, i, budget);
        RemoveAtEnds(p, i);
      } else {
        assert DropOldest(p, i, budget) == DropOldest(p, i + 1, budget);
        DropOldestKeepsEnds(p, i + 1, budget);
        PrefixOfPrefix(DropOldest(p, i + 1, budget), p, i);
      }
    }
  }

  /** Removing an element that is neither before `i` nor last keeps both ends. */
  lemma RemoveAtEnds(p: seq<Message>, i: nat)
    requires i + 1 < |p|
    ensures var q := p[..i] + p[i + 1..];
      q[..i] == p[..i] && q[|q| - 1] == p[|p| - 1]
  {
  }

  /** Agreeing on the first `i + 1` messages means agreeing on the first `i`. */
  lemma PrefixOfPrefix(r: seq<Message>, p: seq<Message>, i: nat)
    requires i + 1 <= |r| && i + 1 <= |p| && r[..i + 1] == p[..i + 1]
    ensures r[..i] == p[..i]
  {
    assert r[..i] == r[..i + 1][..i];
    assert p[..i] == p[..i + 1][..i];
  }

  /** Deletion never removes a system message: they all survive, in order. */
  lemma {:induction false} DropOldestKeepsSystems(p: seq<Message>, i: nat, budget: int)
    requires i <= |p|
    ensures Systems(DropOldest(p, i, budget)) == Systems(p)
    decreases |p| - i
  {
    if MessagesTokenLen(p) > budget && i + 1 < |p| {
      if p[i].role != System {
        var q := p[..i] + p[i + 1..];
        DropOldestKeepsSystems(q, i, budget);
        assert p == p[..i] + [p[i]] + p[i + 1..];
        SystemsAppend(p[..i] + [p[i]], p[i + 1..]);
        SystemsAppend(p[..i], [p[i]]);
        SystemsAppend(p[..i], p[i + 1..]);
      } else {
        DropOldestKeepsSystems(p, i + 1, budget);
      }
    }
  }

  /** The prompt after deleting the non-system messages of `p[i..j]`. */
  function Pruned(p: seq<Message>, i: nat, j: nat): seq<Message>
    requires i <= j <= |p|
  {
    p[..i] + Systems(p[i..j]) + p[j..]
  }

  /** Deleting nothing leaves the prompt as it is. */
  lemma PrunedNothing(p: seq<Message>, i: nat)
    requires i <= |p|
    ensures Pruned(p, i, i) == p
  {
    assert p[i..i] == [];
    assert p[..i] + p[i..] == p;
  }

  /** Every stretch `p[i..j']` shorter than `p[i..j]` left the prompt over budget. */
  ghost predicate OverUntil(p: seq<Message>, i: nat, j: nat, budget: int)
    requires i <= j <= |p|
  {
    forall j' :: i <= j' < j ==> MessagesTokenLen(Pruned(p, i, j')) > budget
  }

  /**
   * Deletion is oldest first and stops as soon as it may: what goes is every
   * non-system message of some stretch `p[i..j]` starting at `i`, and nothing
   * after it; every shorter stretch still left the prompt over budget; and
   * the stretch ends where the prompt fits or just before the last message.
   */
  lemma {:induction false} DropOldestDeletesOldest(p: seq<Message>, i: nat, budget: int)
    requires i <= |p|
    ensures exists j :: i <= j <= |p| && (i < |p| ==> j < |p|)
                        && DropOldest(p, i, budget) == Pruned(p, i, j)
                        && OverUntil(p, i, j, budget)
                        && (MessagesTokenLen(Pruned(p, i, j)) <= budget || j + 1 >= |p|)
    decreases |p| - i
  {
    PrunedNothing(p, i);
    if MessagesTokenLen(p) > budget && i + 1 < |p| {
      if p[i].role != System {
        var q := p[..i] + p[i + 1..];
        assert DropOldest(p, i, budget) == DropOldest(q, i, budget);
        DropOldestDeletesOldest(q, i, budget);
        var j :| i <= j <= |q| && (i < |q| ==> j < |q|)
                 && DropOldest(q, i, budget) == Pruned(q, i, j)
                 && OverUntil(q, i, j, budget)
                 && (MessagesTokenLen(Pruned(q, i, j)) <= budget || j + 1 >= |q|);
        SkipNonSystem(p, i, j);
        SkipOverUntil(p, i, j, budget);
      } else {
        var i1 := i + 1;
        assert DropOldest(p, i, budget) == DropOldest(p, i1, budget);
        DropOldestDeletesOldest(p, i1, budget);
        var j :| i1 <= j <= |p| && (i1 < |p| ==> j < |p|)
                 && DropOldest(p, i1, budget) == Pruned(p, i1, j)
                 && OverUntil(p, i1, j, budget)
                 && (MessagesTokenLen(Pruned(p, i1, j)) <= budget || j + 1 >= |p|);
        KeepSystem(p, i, j);
        KeepOverUntil(p, i, i1, j, budget);
      }
    }
  }

  /** Over budget before a non-system message at `i` is deleted: the shifted stretches stay over budget. */
  lemma SkipOverUntil(p: seq<Message>, i: nat, j: nat, budget: int)
    requires i <= j < |p| && p[i].role != System && MessagesTokenLen(p) > budget
    requires OverUntil(p[..i] + p[i + 1..], i, j, budget)
    ensures OverUntil(p, i, j + 1, budget)
  {
    var q := p[..i] + p[i + 1..];
    forall j' | i <= j' < j + 1
      ensures MessagesTokenLen(Pruned(p, i, j')) > budget
    {
      if j' > i {
        var k := j' - 1;
        assert MessagesTokenLen(Pruned(q, i, k)) > budget;
        SkipNonSystem(p, i, k);
      } else {
        PrunedNothing(p, i);
      }
    }
  }

  /** Over budget before a system message at `i` is skipped: the stretches from `i` stay over budget. */
  lemma KeepOverUntil(p: seq<Message>, i: nat, i1: nat, j: nat, budget: int)
    requires i1 == i + 1 && i1 <= j <= |p| && p[i].role == System && MessagesTokenLen(p) > budget
    requires OverUntil(p, i1, j, budget)
    ensures OverUntil(p, i, j, budget)
  {
    forall j' | i <= j' < j
      ensures MessagesTokenLen(Pruned(p, i, j')) > budget
    {
      if j' > i {
        KeepSystem(p, i, j');
      } else {
        PrunedNothing(p, i);
      }
    }
  }

  /** Deleting a non-system message at `i` shifts the deleted stretch by one. */
  lemma SkipNonSystem(p: seq<Message>, i: nat, j: nat)
    requires i <= j < |p| && p[i].role != System
    ensures Pruned(p[..i] + p[i + 1..], i, j) == Pruned(p, i, j + 1)
  {
    var q := p[..i] + p[i + 1..];
    assert q[..i] == p[..i];
    assert q[i..j] == p[i + 1..j + 1];
    assert q[j..] == p[j + 1..];
    assert p[i..j + 1][1..] == p[i + 1..j + 1];
  }

  /** Skipping a system message at `i` keeps it in place. */
  lemma KeepSystem(p: seq<Message>, i: nat, j: nat)
    requires i < j <= |p| && p[i].role == System
    ensures Pruned(p, i + 1, j) == Pruned(p, i, j)
  {
    assert p[..i + 1] == p[..i] + [p[i]];
    assert p[i..j][1..] == p[i + 1..j];
    assert Systems(p[i..j]) == [p[i]] + Systems(p[i + 1..j]);
  }

  /** The surviving messages before the last keep their relative order. */
  lemma {:induction false} DropOldestKeepsOrder(p: seq<Message>, i: nat, budget: int)
    requires i <= |p| && |p| > 0
    ensures var r := DropOldest(p, i, budget);
      |r| > 0 && IsSubseq(r[..|r| - 1], p[..|p| - 1])
    decreases |p| - i
  {
    var r := DropOldest(p, i, budget);
    if MessagesTokenLen(p) > budget && i + 1 < |p| {
      if p[i].role != System {
        var q := p[..i] + p[i + 1..];
        assert r == DropOldest(q, i, budget);
        DropOldestKeepsOrder(q, i, budget);
        RemoveAtButLast(p, i);
        RemoveAtIsSubseq(p[..|p| - 1], i);
        IsSubseqTrans(r[..|r| - 1], q[..|q| - 1], p[..|p| - 1]);
      } else {
        assert r == DropOldest(p, i + 1, budget);
        DropOldestKeepsOrder(p, i + 1, budget);
      }
    } else {
      IsSubseqRefl(p[..|p| - 1]);
    }
  }

  /** Removing an element before the last commutes with dropping the last. */
  lemma RemoveAtButLast(p: seq<Message>, i: nat)
    requires i + 1 < |p|
    ensures var q := p[..i] + p[i + 1..];
      q[..|q| - 1] == p[..|p| - 1][..i] + p[..|p| - 1][i + 1..]
  {
  }

  /**
   * Deletion stops only when the prompt fits or when every message from `i`
   * up to (not including) the last is a system message.
   */
  lemma {:induction false} DropOldestStops(p: seq<Message>, i: nat, budget: int)
    requires i <= |p|
    ensures var r := DropOldest(p, i, budget);
      MessagesTokenLen(r) <= budget || forall k :: i <= k < |r| - 1 ==> r[k].role == System
    decreases |p| - i
  {
    if MessagesTokenLen(p) > budget && i + 1 < |p| {
      if p[i].role != System {
        DropOldestStops(p[..i] + p[i + 1..], i, budget);
      } else {
        DropOldestStops(p, i + 1, budget);
        DropOldestKeepsEnds(p, i + 1, budget);
        var r := DropOldest(p, i + 1, budget);
        assert r[i] == r[..i + 1][i];
      }
    }
  }

  /**
   * The truncation loop: while over budget, replace the last message's
   * content by its trailing `int(len * 0.8)` elements, stopping once it is
   * shorter than the floor.
   */
  function ShortenLast(p: seq<Message>, budget: int): (r: seq<Message>)
    ensures |r| == |p|
    ensures |p| > 0 ==> r[..|r| - 1] == p[..|p| - 1]
    ensures |p| > 0 ==> r[|r| - 1].role == p[|p| - 1].role
    ensures |p| > 0 ==> IsTail(r[|r| - 1].content, p[|p| - 1].content)
    decreases if |p| == 0 then 0 else Len(p[|p| - 1].content)
  {
    if |p| == 0 || MessagesTokenLen(p) <= budget then p
    else
      var last := p[|p| - 1];
      var c := last.content;
      if Len(c) < TruncationFloor then p
      else
        var q := p[..|p| - 1] + [last.(content := KeepLast(c, Len(c) * 4 / 5))];
        assert q[..|q| - 1] == p[..|p| - 1];
        var r := ShortenLast(q, budget);
        IsTailTransitive(r[|r| - 1].content, q[|q| - 1].content, c);
        r
  }

  /** The truncation loop ends within budget or with a last message under the floor. */
  lemma {:induction false} ShortenLastStops(p: seq<Message>, budget: int)
    requires |p| > 0
    ensures var r := ShortenLast(p, budget);
      MessagesTokenLen(r) <= budget || Len(r[|r| - 1].content) < TruncationFloor
    decreases Len(p[|p| - 1].content)
  {
    if MessagesTokenLen(p) > budget {
      var last := p[|p| - 1];
      var c := last.content;
      if Len(c) >= TruncationFloor {
        ShortenLastStops(p[..|p| - 1] + [last.(content := KeepLast(c, Len(c) * 4 / 5))], budget);
      }
    }
  }

  /** `n` after `k` truncation steps: `int(n * 0.8)` applied `k` times. */
  function Shrink(n: nat, k: nat): (r: nat)
    ensures r <= n
  {
    if k == 0 then n else Shrink(n * 4 / 5, k - 1)
  }

  /** The trailing `m` elements of a content, for any `m` up to its length (`m == 0` gives the empty tail). */
  function TailOf(c: Content, m: nat): (r: Content)
    requires m <= Len(c)
  {
    match c
    case Text(s) => Text(s[|s| - m..])
    case Parts(ps) => Parts(ps[|ps| - m..])
  }

  /** `p` with its last message's content cut to its trailing `m` elements. */
  function ShortenedTo(p: seq<Message>, m: nat): seq<Message>
    requires |p| > 0 && m <= Len(p[|p| - 1].content)
  {
    var last := p[|p| - 1];
    p[..|p| - 1] + [last.(content := TailOf(last.content, m))]
  }

  /** Cutting to the full length changes nothing. */
  lemma ShortenedToWhole(p: seq<Message>)
    requires |p| > 0
    ensures ShortenedTo(p, Len(p[|p| - 1].content)) == p
  {
    var last := p[|p| - 1];
    match last.content
    case Text(s) => assert s[|s| - |s|..] == s;
    case Parts(ps) => assert ps[|ps| - |ps|..] == ps;
    assert p[..|p| - 1] + [last] == p;
  }

  /** Cutting twice is cutting once to the shorter length. */
  lemma ShortenedToTwice(p: seq<Message>, m1: nat, m2: nat)
    requires |p| > 0 && m2 <= m1 <= Len(p[|p| - 1].content)
    ensures var q := ShortenedTo(p, m1);
      m2 <= Len(q[|q| - 1].content) && ShortenedTo(q, m2) == ShortenedTo(p, m2)
  {
    var q := ShortenedTo(p, m1);
    assert q[..|q| - 1] == p[..|p| - 1];
    match p[|p| - 1].content
    case Text(s) => assert s[|s| - m1..][m1 - m2..] == s[|s| - m2..];
    case Parts(ps) => assert ps[|ps| - m1..][m1 - m2..] == ps[|ps| - m2..];
  }

  /** Before each of the first `k` truncation steps, the prompt was over budget and the content at least the floor long. */
  ghost predicate OverBeforeSteps(p: seq<Message>, budget: int, k: nat)
    requires |p| > 0
  {
    var L := Len(p[|p| - 1].content);
    forall k': nat :: k' < k ==> Shrink(L, k') >= TruncationFloor
                                 && MessagesTokenLen(ShortenedTo(p, Shrink(L, k'))) > budget
  }

  /**
   * The truncation loop keeps exactly the trailing `Shrink(len, k)` elements
   * of the last message for some number of steps `k`: before every step the
   * prompt was still over budget and the content at least the floor long,
   * and the loop stops at the first length where the prompt fits or the
   * content is under the floor.
   */
  lemma {:induction false} ShortenLastSteps(p: seq<Message>, budget: int)
    requires |p| > 0
    ensures var L := Len(p[|p| - 1].content);
      exists k: nat :: ShortenLast(p, budget) == ShortenedTo(p, Shrink(L, k))
                       && OverBeforeSteps(p, budget, k)
                       && (MessagesTokenLen(ShortenLast(p, budget)) <= budget || Shrink(L, k) < TruncationFloor)
    decreases Len(p[|p| - 1].content)
  {
    var last := p[|p| - 1];
    var c := last.content;
    var L := Len(c);
    ShortenedToWhole(p);
    assert Shrink(L, 0) == L;
    if MessagesTokenLen(p) > budget && L >= TruncationFloor {
      var L' := L * 4 / 5;
      var q := ShortenLastStep(p, budget);
      ShortenLastSteps(q, budget);
      var k: nat :| ShortenLast(q, budget) == ShortenedTo(q, Shrink(L', k))
                    && OverBeforeSteps(q, budget, k)
                    && (MessagesTokenLen(ShortenLast(q, budget)) <= budget || Shrink(L', k) < TruncationFloor);
      ShortenedToTwice(p, L', Shrink(L', k));
      assert Shrink(L, k + 1) == Shrink(L', k);
      OverBeforeStepsCons(p, q, budget, k);
    } else {
      ShortenLastStops(p, budget);
    }
  }

  /** One truncation step, as a cut to `int(len * 0.8)`. */
  lemma ShortenLastStep(p: seq<Message>, budget: int) returns (q: seq<Message>)
    requires |p| > 0 && MessagesTokenLen(p) > budget && Len(p[|p| - 1].content) >= TruncationFloor
    ensures var L := Len(p[|p| - 1].content);
      && q == ShortenedTo(p, L * 4 / 5) && |q| > 0 && Len(q[|q| - 1].content) == L * 4 / 5
      && ShortenLast(p, budget) == ShortenLast(q, budget)
  {
    var last := p[|p| - 1];
    var c := last.content;
    q := p[..|p| - 1] + [last.(content := KeepLast(c, Len(c) * 4 / 5))];
    match c
    case Text(s) =>
    case Parts(ps) =>
  }

  /** Prepending the first step to the steps from the cut prompt. */
  lemma OverBeforeStepsCons(p: seq<Message>, q: seq<Message>, budget: int, k: nat)
    requires |p| > 0 && MessagesTokenLen(p) > budget && Len(p[|p| - 1].content) >= TruncationFloor
    requires q == ShortenedTo(p, Len(p[|p| - 1].content) * 4 / 5) && |q| > 0
    requires Len(q[|q| - 1].content) == Len(p[|p| - 1].content) * 4 / 5
    requires OverBeforeSteps(q, budget, k)
    ensures OverBeforeSteps(p, budget, k + 1)
  {
    var L := Len(p[|p| - 1].content);
    var L' := L * 4 / 5;
    ShortenedToWhole(p);
    forall k': nat | k' < k + 1
      ensures Shrink(L, k') >= TruncationFloor && MessagesTokenLen(ShortenedTo(p, Shrink(L, k'))) > budget
    {
      if k' > 0 {
        var m := Shrink(L', k' - 1);
        assert Shrink(L, k') == m;
        assert m >= TruncationFloor && MessagesTokenLen(ShortenedTo(q, m)) > budget;
        ShortenedToTwice(p, L', m);
      }
    }
  }

  /**
   * Cutting the last message changes no role, so no system message is lost:
   * all but the last system message are unchanged, and the last keeps its
   * role with its content cut to a tail.
   */
  lemma ShortenLastKeepsSystems(p: seq<Message>, budget: int)
    requires |p| > 0
    ensures var s, s' := Systems(p), Systems(ShortenLast(p, budget));
      && |s'| == |s|
      && (|s| > 0 ==> s'[..|s| - 1] == s[..|s| - 1] && s'[|s| - 1].role == System
                      && IsTail(s'[|s| - 1].content, s[|s| - 1].content))
  {
    SystemsShortenedLast(p, ShortenLast(p, budget));
  }

  /**
   * `fit_to_budget`: returns the input unchanged when it already fits;
   * otherwise arranges head and rest, deletes, then shortens the last message.
   */
  function FitToBudget(msgs: seq<Message>, budget: int): (r: seq<Message>)
    ensures MessagesTokenLen(msgs) <= budget ==> r == msgs
    ensures |r| == 0 <==> |msgs| == 0
  {
    if MessagesTokenLen(msgs) <= budget then msgs
    else
      var head := Partition(msgs, MaxHead).0;
      ShortenLast(DropOldest(Arrange(msgs), |head|, budget), budget)
  }

  /** On return the prompt fits, or its last message is shorter than the floor. */
  lemma FitToBudgetFits(msgs: seq<Message>, budget: int)
    requires |msgs| > 0
    ensures var r := FitToBudget(msgs, budget);
      MessagesTokenLen(r) <= budget || Len(r[|r| - 1].content) < TruncationFloor
  {
    if MessagesTokenLen(msgs) > budget {
      var head := Partition(msgs, MaxHead).0;
      var a := Arrange(msgs);
      assert |a| == |msgs|;
      var pruned := DropOldest(a, |head|, budget);
      assert FitToBudget(msgs, budget) == ShortenLast(pruned, budget);
      ShortenLastStops(pruned, budget);
    }
  }

  /**
   * No system message is ever deleted: the system messages come out in their
   * original order, unchanged except that the last one may have been cut to
   * a tail (when it ended up as the final message).
   */
  lemma FitToBudgetKeepsSystems(msgs: seq<Message>, budget: int)
    ensures var s, s' := Systems(msgs), Systems(FitToBudget(msgs, budget));
      && |s'| == |s|
      && (|s| > 0 ==> s'[..|s| - 1] == s[..|s| - 1] && s'[|s| - 1].role == System
                      && IsTail(s'[|s| - 1].content, s[|s| - 1].content))
  {
    var s := Systems(msgs);
    if MessagesTokenLen(msgs) > budget && |msgs| > 0 {
      var head := Partition(msgs, MaxHead).0;
      var a := Arrange(msgs);
      ArrangeKeepsSystems(msgs);
      var pruned := DropOldest(a, |head|, budget);
      DropOldestKeepsSystems(a, |head|, budget);
      var r := ShortenLast(pruned, budget);
      assert FitToBudget(msgs, budget) == r;
      SystemsShortenedLast(pruned, r);
    } else {
      SameSystems(msgs);
    }
  }

  /** Every content is a tail of itself. */
  lemma IsTailRefl(c: Content)
    ensures IsTail(c, c)
  {
    match c
    case Text(a) => assert a[|a| - |a|..] == a;
    case Parts(a) => assert a[|a| - |a|..] == a;
  }

  /** Changing only the last message's content to a tail changes at most the last system message. */
  lemma SystemsShortenedLast(p: seq<Message>, r: seq<Message>)
    requires |r| == |p| > 0 && r[..|r| - 1] == p[..|p| - 1]
    requires r[|r| - 1].role == p[|p| - 1].role && IsTail(r[|r| - 1].content, p[|p| - 1].content)
    ensures var s, s' := Systems(p), Systems(r);
      && |s'| == |s|
      && (|s| > 0 ==> s'[..|s| - 1] == s[..|s| - 1] && s'[|s| - 1].role == System
                      && IsTail(s'[|s| - 1].content, s[|s| - 1].content))
  {
    var init := p[..|p| - 1];
    var pl, rl := p[|p| - 1], r[|r| - 1];
    assert p == init + [pl];
    assert r == init + [rl];
    SystemsAppend(init, [pl]);
    SystemsAppend(init, [rl]);
    var x := Systems(init);
    if pl.role != System {
      assert Systems([pl]) == [] && Systems([rl]) == [];
      SameSystems(p);
    } else {
      assert Systems([pl]) == [pl] && Systems([rl]) == [rl];
      TailOfLast(x, pl, rl);
    }
  }

  /** Two lists of system messages that differ only in the last one's content, cut to a tail. */
  lemma TailOfLast(x: seq<Message>, pl: Message, rl: Message)
    requires pl.role == System && rl.role == System && IsTail(rl.content, pl.content)
    ensures (x + [rl])[..|x|] == (x + [pl])[..|x|]
  {
    assert (x + [rl])[..|x|] == x;
    assert (x + [pl])[..|x|] == x;
  }

  /** The system messages of any list satisfy the conclusion with nothing cut. */
  lemma SameSystems(p: seq<Message>)
    ensures var s := Systems(p);
      |s| > 0 ==> s[|s| - 1].role == System && IsTail(s[|s| - 1].content, s[|s| - 1].content)
  {
    var s := Systems(p);
    if |s| > 0 {
      SystemsPrefixAllSystem(p, |s|);
      IsTailRefl(s[|s| - 1].content);
    }
  }

  /**
   * When trimming happens, the deleted messages are the oldest non-system
   * messages after the head, and no more than needed: the arranged prompt
   * loses the non-system messages of a stretch right after the head, every
   * shorter stretch still left it over budget, the stretch ends where the
   * prompt fits or just before the last message, and only then is the last
   * message shortened.
   */
  lemma FitToBudgetDeletesOldest(msgs: seq<Message>, budget: int)
    requires MessagesTokenLen(msgs) > budget
    ensures var head, a := Partition(msgs, MaxHead).0, Arrange(msgs);
      exists j :: |head| <= j <= |a| && (|head| < |a| ==> j < |a|)
                  && FitToBudget(msgs, budget) == ShortenLast(head + Systems(a[|head|..j]) + a[j..], budget)
                  && OverUntil(a, |head|, j, budget)
                  && (MessagesTokenLen(Pruned(a, |head|, j)) <= budget || j + 1 >= |a|)
  {
    var head := Partition(msgs, MaxHead).0;
    var a := Arrange(msgs);
    assert a[..|head|] == head;
    assert FitToBudget(msgs, budget) == ShortenLast(DropOldest(a, |head|, budget), budget);
    DropOldestDeletesOldest(a, |head|, budget);
  }

  /** When trimming happens, the head comes first and is untouched (unless it is the whole prompt). */
  lemma FitToBudgetKeepsHead(msgs: seq<Message>, budget: int)
    requires MessagesTokenLen(msgs) > budget
    ensures var head := Partition(msgs, MaxHead).0;
      |head| < |msgs| ==> FitToBudget(msgs, budget)[..|head|] == head
  {
    var head := Partition(msgs, MaxHead).0;
    var a := Arrange(msgs);
    var pruned := DropOldest(a, |head|, budget);
    var r := ShortenLast(pruned, budget);
    assert FitToBudget(msgs, budget) == r;
    if |head| < |msgs| {
      DropOldestKeepsEnds(a, |head|, budget);
      PrefixSurvives(head, a, pruned, r);
    }
  }

  /** Shortening the last message keeps the leading system block that pruning kept. */
  lemma PrefixSurvives(head: seq<Message>, a: seq<Message>, pruned: seq<Message>, r: seq<Message>)
    requires |head| < |a| && a[..|head|] == head
    requires |pruned| > |head| && pruned[..|head|] == a[..|head|]
    requires |r| == |pruned| && r[..|r| - 1] == pruned[..|pruned| - 1]
    ensures r[..|head|] == head
  {
    assert r[..|head|] == r[..|r| - 1][..|head|];
    assert pruned[..|head|] == pruned[..|pruned| - 1][..|head|];
  }

  /**
   * When trimming happens, the messages before the last are a subsequence of
   * the arranged prompt's, and the last message is the arranged prompt's
   * last one with its content possibly cut to a tail.
   */
  lemma FitToBudgetKeepsOrder(msgs: seq<Message>, budget: int)
    requires MessagesTokenLen(msgs) > budget && |msgs| > 0
    ensures OrderKept(FitToBudget(msgs, budget), Arrange(msgs))
  {
    var head := Partition(msgs, MaxHead).0;
    var a := Arrange(msgs);
    assert |a| == |msgs|;
    assert FitToBudget(msgs, budget) == ShortenLast(DropOldest(a, |head|, budget), budget);
    PruneThenShortenKeepsOrder(a, |head|, budget);
  }

  /** Deleting from `i` on and then shortening the last message keeps the order of any list. */
  lemma PruneThenShortenKeepsOrder(a: seq<Message>, i: nat, budget: int)
    requires i <= |a| && |a| > 0
    ensures OrderKept(ShortenLast(DropOldest(a, i, budget), budget), a)
  {
    var pruned := DropOldest(a, i, budget);
    var r := ShortenLast(pruned, budget);
    DropOldestKeepsOrder(a, i, budget);
    DropOldestKeepsEnds(a, i, budget);
    OrderThroughShortening(a, pruned, r);
  }

  /** Shortening the last message of a pruned list keeps the order of the arranged list. */
  lemma OrderThroughShortening(a: seq<Message>, pruned: seq<Message>, r: seq<Message>)
    requires |a| > 0 && |pruned| > 0 && |r| == |pruned|
    requires IsSubseq(pruned[..|pruned| - 1], a[..|a| - 1]) && pruned[|pruned| - 1] == a[|a| - 1]
    requires r[..|r| - 1] == pruned[..|pruned| - 1]
    requires r[|r| - 1].role == pruned[|pruned| - 1].role
    requires IsTail(r[|r| - 1].content, pruned[|pruned| - 1].content)
    ensures OrderKept(r, a)
  {
  }

  /**
   * `r` keeps the order of `a`: the messages before the last form a
   * subsequence, and the last is `a`'s last with its content cut to a tail.
   */
  ghost predicate OrderKept(r: seq<Message>, a: seq<Message>) {
    && |r| > 0 && |a| > 0
    && IsSubseq(r[..|r| - 1], a[..|a| - 1])
    && r[|r| - 1].role == a[|a| - 1].role
    && IsTail(r[|r| - 1].content, a[|a| - 1].content)
  }
}
