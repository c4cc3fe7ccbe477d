/** The admission discipline of the two run-all methods of the download manager, as a trace of
    task-group actions: a task is started (`addTask`) or one in-flight task completes
    (`taskGroup.next()` returns). The group is drained sequentially; which in-flight task completes
    next is chosen by the environment through a sequence of choices. */
module Schedule {

  /** One task-group action on the file at `index`. */
  datatype Action = Start(index: nat) | Finish(index: nat)

  /** The state of the bounded scheduler: `next` is `currentIndex`, `pending` the in-flight
      indices in the order they were started, `step` the number of completions so far. */
  datatype Group = Group(next: nat, pending: seq<nat>, step: nat)

  /** `min(maxConcurrentDownloads, indices.count)`: how many tasks the first loop starts. */
  function Admitted(count: nat, limit: nat): (m: nat)
    ensures m <= count && m <= limit
    ensures m == count || m == limit
  {
    if limit <= count then limit else count
  }

  /** The indices lo, lo + 1, ..., hi - 1. */
  function Range(lo: nat, hi: nat): (r: seq<nat>)
    ensures |r| == if lo <= hi then hi - lo else 0
    decreases hi - lo
  {
    if hi <= lo then [] else [lo] + Range(lo + 1, hi)
  }

  /** Starting the indices lo, ..., hi - 1 in that order. */
  function StartRange(lo: nat, hi: nat): (r: seq<Action>)
    ensures |r| == if lo <= hi then hi - lo else 0
    decreases hi - lo
  {
    if hi <= lo then [] else [Start(lo)] + StartRange(lo + 1, hi)
  }

  /** Which of `width` in-flight tasks completes at completion number `step`. */
  function Choice(choices: seq<nat>, step: nat, width: nat): (p: nat)
    requires width > 0
    ensures p < width
  {
    (if step < |choices| then choices[step] else 0) % width
  }

  /** `s` without its element at position `p`. */
  function Remove(s: seq<nat>, p: nat): seq<nat>
    requires p < |s|
  {
    s[..p] + s[p + 1..]
  }

  /** The `while let _ = await taskGroup.next()` loop: each completion of an in-flight task is
      followed by the start of the next unstarted index, if there is one. */
  function Drain(count: nat, g: Group, choices: seq<nat>): seq<Action>
    requires g.next <= count
    decreases 2 * (count - g.next) + |g.pending|
  {
    if |g.pending| == 0 then []
    else
      var p := Choice(choices, g.step, |g.pending|);
      var rest := Remove(g.pending, p);
      if g.next < count then
        [Finish(g.pending[p]), Start(g.next)]
          + Drain(count, Group(g.next + 1, rest + [g.next], g.step + 1), choices)
      else
        [Finish(g.pending[p])] + Drain(count, Group(g.next, rest, g.step + 1), choices)
  }

  /** The actions of one turn of the completion loop: the chosen completion, then the next
      start if an index is left. */
  function Turn(count: nat, g: Group, choices: seq<nat>): seq<Action>
    requires |g.pending| > 0
  {
    var p := Choice(choices, g.step, |g.pending|);
    if g.next < count then [Finish(g.pending[p]), Start(g.next)] else [Finish(g.pending[p])]
  }

  /** The group after one turn of the completion loop. */
  function Advance(count: nat, g: Group, choices: seq<nat>): Group
    requires |g.pending| > 0
  {
    var p := Choice(choices, g.step, |g.pending|);
    var rest := Remove(g.pending, p);
    if g.next < count then Group(g.next + 1, rest + [g.next], g.step + 1)
    else Group(g.next, rest, g.step + 1)
  }

  /** A non-empty drain is one turn followed by the drain of the advanced group. */
  lemma DrainTurn(count: nat, g: Group, choices: seq<nat>)
    requires g.next <= count && |g.pending| > 0
    ensures Advance(count, g, choices).next <= count
    ensures Drain(count, g, choices)
      == Turn(count, g, choices) + Drain(count, Advance(count, g, choices), choices)
  {
  }

  /** The whole trace of `startDownloadingAllWithLimit` over `count` files: the first
      `min(limit, count)` indices start at once, then the group is drained. The unlimited
      `startDownloadingAll` is the same trace with `limit == count`. */
  function Bounded(count: nat, limit: nat, choices: seq<nat>): seq<Action>
  {
    var m := Admitted(count, limit);
    StartRange(0, m) + Drain(count, Group(m, Range(0, m), 0), choices)
  }

  /** One file at a time: start 0, finish 0, start 1, finish 1, ... */
  function Sequential(lo: nat, hi: nat): seq<Action>
    decreases hi - lo
  {
    if hi <= lo then [] else [Start(lo), Finish(lo)] + Sequential(lo + 1, hi)
  }

  /** The indices started by a trace, in order. */
  function Starts(t: seq<Action>): seq<nat>
  {
    if t == [] then [] else (if t[0].Start? then [t[0].index] else []) + Starts(t[1..])
  }

  /** The indices completed by a trace, in order. */
  function Finishes(t: seq<Action>): seq<nat>
  {
    if t == [] then [] else (if t[0].Finish? then [t[0].index] else []) + Finishes(t[1..])
  }

  /** How many tasks are in flight after the trace `t`, counted from an empty group. */
  function Active(t: seq<Action>): int
  {
    |Starts(t)| - |Finishes(t)|
  }

  // ---------------------------------------------------------------------------------------
  // Facts about ranges and traces

  /** A range read off by position. */
  lemma {:induction false} RangeAt(lo: nat, hi: nat)
    requires lo <= hi
    ensures forall k :: 0 <= k < hi - lo ==> Range(lo, hi)[k] == lo + k
    ensures forall k :: 0 <= k < hi - lo ==> StartRange(lo, hi)[k] == Start(lo + k)
    decreases hi - lo
  {
    if lo < hi {
      RangeAt(lo + 1, hi);
    }
  }

  lemma RangeSnoc(lo: nat, hi: nat)
    requires lo <= hi
    ensures Range(lo, hi + 1) == Range(lo, hi) + [hi]
    ensures StartRange(lo, hi + 1) == StartRange(lo, hi) + [Start(hi)]
  {
    RangeAt(lo, hi);
    RangeAt(lo, hi + 1);
    assert Range(lo, hi + 1) == Range(lo, hi) + [hi];
    assert StartRange(lo, hi + 1) == StartRange(lo, hi) + [Start(hi)];
  }

  lemma RangeSplit(lo: nat, mid: nat, hi: nat)
    requires lo <= mid <= hi
    ensures Range(lo, mid) + Range(mid, hi) == Range(lo, hi)
  {
    RangeAt(lo, mid);
    RangeAt(mid, hi);
    RangeAt(lo, hi);
    assert Range(lo, mid) + Range(mid, hi) == Range(lo, hi);
  }

  /** A prefix of a run of starts is a shorter run of starts. */
  lemma StartRangePrefix(lo: nat, k: nat, hi: nat)
    requires lo <= k <= hi
    ensures StartRange(lo, hi)[..k - lo] == StartRange(lo, k)
  {
    RangeAt(lo, hi);
    RangeAt(lo, k);
    assert StartRange(lo, hi)[..k - lo] == StartRange(lo, k);
  }

  /** Every index of a range occurs in it exactly once. */
  lemma {:induction false} RangeMultiplicity(lo: nat, hi: nat, x: nat)
    requires lo <= hi
    ensures multiset(Range(lo, hi))[x] == if lo <= x < hi then 1 else 0
    decreases hi - lo
  {
    if lo < hi {
      RangeMultiplicity(lo + 1, hi, x);
    }
  }

  lemma {:induction false} StartsConcat(a: seq<Action>, b: seq<Action>)
    ensures Starts(a + b) == Starts(a) + Starts(b)
    ensures Finishes(a + b) == Finishes(a) + Finishes(b)
  {
    if a != [] {
      assert (a + b)[1..] == a[1..] + b;
      StartsConcat(a[1..], b);
    } else {
      assert a + b == b;
    }
  }

  /** What the two heads of a drain step start and complete. */
  lemma HeadActions(i: nat, j: nat)
    ensures Starts([Finish(i), Start(j)]) == [j] && Finishes([Finish(i), Start(j)]) == [i]
    ensures Starts([Finish(i)]) == [] && Finishes([Finish(i)]) == [i]
  {
    assert Starts([Start(j)]) == [j] && Finishes([Start(j)]) == [] by {
      assert [Start(j)][1..] == [];
    }
    assert Starts([Finish(i)]) == [] && Finishes([Finish(i)]) == [i] by {
      assert [Finish(i)][1..] == [];
      assert Finishes([Finish(i)]) == [i] + Finishes([]);
    }
    assert [Finish(i), Start(j)] == [Finish(i)] + [Start(j)];
    StartsConcat([Finish(i)], [Start(j)]);
  }

  lemma ActiveConcat(a: seq<Action>, b: seq<Action>)
    ensures Active(a + b) == Active(a) + Active(b)
  {
    StartsConcat(a, b);
  }

  /** A run of starts starts exactly its range and completes nothing. */
  lemma {:induction false} StartRangeActions(lo: nat, hi: nat)
    requires lo <= hi
    ensures Starts(StartRange(lo, hi)) == Range(lo, hi)
    ensures Finishes(StartRange(lo, hi)) == []
    decreases hi - lo
  {
    if lo < hi {
      StartRangeActions(lo + 1, hi);
      StartsConcat([Start(lo)], StartRange(lo + 1, hi));
    }
  }

  lemma RemoveMultiset(s: seq<nat>, p: nat)
    requires p < |s|
    ensures multiset(Remove(s, p)) + multiset{s[p]} == multiset(s)
    ensures |Remove(s, p)| == |s| - 1
  {
    assert s == s[..p] + [s[p]] + s[p + 1..];
  }

  /** No index occurs twice. */
  predicate Distinct(s: seq<nat>) {
    forall j, k :: 0 <= j < k < |s| ==> s[j] != s[k]
  }

  /** Removing the element at `p` from a sequence without repetitions removes exactly that
      element and keeps the rest free of repetitions. */
  lemma RemoveDistinct(s: seq<nat>, p: nat)
    requires p < |s| && Distinct(s)
    ensures Distinct(Remove(s, p))
    ensures forall x :: x in Remove(s, p) <==> x in s && x != s[p]
  {
    var r := Remove(s, p);
    assert forall k :: 0 <= k < |r| ==> r[k] == s[if k < p then k else k + 1];
    forall x | x in s && x != s[p] ensures x in r {
      var k :| 0 <= k < |s| && s[k] == x;
      assert r[if k < p then k else k - 1] == x;
    }
  }

  // ---------------------------------------------------------------------------------------
  // The in-flight bound

  /** The in-flight count along a prefix of a drain, split at its first turn: a turn that
      also starts an index leaves the count as it was, one that only completes lowers it by
      one, and a prefix that stops inside the turn has only completed. */
  lemma TurnPrefix(count: nat, g: Group, choices: seq<nat>, k: nat)
    requires g.next <= count && |g.pending| > 0 && 0 < k <= |Drain(count, g, choices)|
    ensures Advance(count, g, choices).next <= count
    ensures Active(Turn(count, g, choices)) == if g.next < count then 0 else -1
    ensures |Turn(count, g, choices)| <= k ==>
      && k - |Turn(count, g, choices)| <= |Drain(count, Advance(count, g, choices), choices)|
      && Active(Drain(count, g, choices)[..k]) == Active(Turn(count, g, choices))
           + Active(Drain(count, Advance(count, g, choices), choices)[..k - |Turn(count, g, choices)|])
    ensures k < |Turn(count, g, choices)| ==> Active(Drain(count, g, choices)[..k]) == -1
  {
    DrainTurn(count, g, choices);
    var p := Choice(choices, g.step, |g.pending|);
    var t := Turn(count, g, choices);
    var tail := Drain(count, Advance(count, g, choices), choices);
    HeadActions(g.pending[p], g.next);
    if |t| <= k {
      assert Drain(count, g, choices)[..k] == t + tail[..k - |t|];
      ActiveConcat(t, tail[..k - |t|]);
    } else {
      assert Drain(count, g, choices)[..k] == [Finish(g.pending[p])];
    }
  }

  /** While draining a group with at most `limit` tasks in flight, the number in flight never
      exceeds `limit` and never drops below zero. */
  lemma {:induction false} DrainInFlight(count: nat, g: Group, choices: seq<nat>, limit: nat, k: nat)
    requires g.next <= count && |g.pending| <= limit
    requires k <= |Drain(count, g, choices)|
    ensures 0 <= |g.pending| + Active(Drain(count, g, choices)[..k]) <= limit
    decreases 2 * (count - g.next) + |g.pending|
  {
    if k > 0 {
      var p := Choice(choices, g.step, |g.pending|);
      RemoveMultiset(g.pending, p);
      var g' := Advance(count, g, choices);
      TurnPrefix(count, g, choices, k);
      var n := |Turn(count, g, choices)|;
      if n <= k {
        DrainInFlight(count, g', choices, limit, k - n);
      }
    }
  }

  /** In-flight never exceeds the limit: after every prefix of the bounded trace, between 0 and
      `limit` tasks are in flight. */
  lemma BoundedInFlight(count: nat, limit: nat, choices: seq<nat>)
    ensures forall k :: 0 <= k <= |Bounded(count, limit, choices)| ==>
      0 <= Active(Bounded(count, limit, choices)[..k]) <= limit
  {
    var m := Admitted(count, limit);
    var s := StartRange(0, m);
    var d := Drain(count, Group(m, Range(0, m), 0), choices);
    var t := Bounded(count, limit, choices);
    assert t == s + d;
    forall k | 0 <= k <= |t|
      ensures 0 <= Active(t[..k]) <= limit
    {
      if k <= m {
        StartRangePrefix(0, k, m);
        assert t[..k] == StartRange(0, k);
        StartRangeActions(0, k);
      } else {
        assert t[..k] == s + d[..k - m];
        ActiveConcat(s, d[..k - m]);
        StartRangeActions(0, m);
        DrainInFlight(count, Group(m, Range(0, m), 0), choices, limit, k - m);
      }
    }
  }

  // ---------------------------------------------------------------------------------------
  // Exactly-once admission in index order, exactly-once completion

  /** Draining starts the unstarted indices next, ..., count - 1 in increasing order. */
  lemma {:induction false} DrainStarts(count: nat, g: Group, choices: seq<nat>)
    requires g.next <= count && (g.next < count ==> |g.pending| > 0)
    ensures Starts(Drain(count, g, choices)) == Range(g.next, count)
    decreases 2 * (count - g.next) + |g.pending|
  {
    if |g.pending| > 0 {
      var p := Choice(choices, g.step, |g.pending|);
      var rest := Remove(g.pending, p);
      if g.next < count {
        var g' := Group(g.next + 1, rest + [g.next], g.step + 1);
        DrainStarts(count, g', choices);
        StartsConcat([Finish(g.pending[p]), Start(g.next)], Drain(count, g', choices));
        HeadActions(g.pending[p], g.next);
      } else {
        var g' := Group(g.next, rest, g.step + 1);
        DrainStarts(count, g', choices);
        StartsConcat([Finish(g.pending[p])], Drain(count, g', choices));
        HeadActions(g.pending[p], 0);
      }
    }
  }

  /** What one turn of a drain completes: the chosen index, then what the rest completes. */
  lemma FinishesTurn(count: nat, g: Group, choices: seq<nat>)
    requires g.next <= count && |g.pending| > 0
    ensures Advance(count, g, choices).next <= count
    ensures Finishes(Drain(count, g, choices))
      == [g.pending[Choice(choices, g.step, |g.pending|)]]
        + Finishes(Drain(count, Advance(count, g, choices), choices))
  {
    DrainTurn(count, g, choices);
    HeadActions(g.pending[Choice(choices, g.step, |g.pending|)], g.next);
    StartsConcat(Turn(count, g, choices), Drain(count, Advance(count, g, choices), choices));
  }

  /** The multiset bookkeeping of a drain turn that completes `done` and starts `next`. */
  lemma TurnMultiset(pending: seq<nat>, rest: seq<nat>, done: nat, next: nat, count: nat,
                     pending': seq<nat>, next': nat, fd: multiset<nat>, ft: multiset<nat>)
    requires next < count && pending' == rest + [next] && next' == next + 1
    requires multiset(rest) + multiset{done} == multiset(pending)
    requires fd == multiset{done} + ft
    requires ft == multiset(pending') + multiset(Range(next', count))
    ensures fd == multiset(pending) + multiset(Range(next, count))
  {
    assert multiset(rest + [next]) == multiset(rest) + multiset{next};
    assert Range(next, count) == [next] + Range(next + 1, count);
  }

  /** The inductive step of `DrainFinishes`: if the drain after one turn completes what is then
      in flight and unstarted, the whole drain completes what is in flight and unstarted now. */
  lemma DrainFinishesTurn(count: nat, g: Group, choices: seq<nat>)
    requires g.next <= count && |g.pending| > 0 && Advance(count, g, choices).next <= count
    requires multiset(Finishes(Drain(count, Advance(count, g, choices), choices)))
      == multiset(Advance(count, g, choices).pending) + multiset(Range(Advance(count, g, choices).next, count))
    ensures multiset(Finishes(Drain(count, g, choices)))
      == multiset(g.pending) + multiset(Range(g.next, count))
  {
    var p := Choice(choices, g.step, |g.pending|);
    var rest := Remove(g.pending, p);
    var g' := Advance(count, g, choices);
    FinishesTurn(count, g, choices);
    RemoveMultiset(g.pending, p);
    if g.next < count {
      TurnMultiset(g.pending, rest, g.pending[p], g.next, count, g'.pending, g'.next,
        multiset(Finishes(Drain(count, g, choices))), multiset(Finishes(Drain(count, g', choices))));
    } else {
      assert g' == Group(g.next, rest, g.step + 1);
    }
  }

  /** Draining completes every in-flight index and every unstarted one, each exactly once. */
  lemma {:induction false} DrainFinishes(count: nat, g: Group, choices: seq<nat>)
    requires g.next <= count && (g.next < count ==> |g.pending| > 0)
    ensures multiset(Finishes(Drain(count, g, choices)))
      == multiset(g.pending) + multiset(Range(g.next, count))
    decreases 2 * (count - g.next) + |g.pending|
  {
    if |g.pending| > 0 {
      RemoveMultiset(g.pending, Choice(choices, g.step, |g.pending|));
      DrainFinishes(count, Advance(count, g, choices), choices);
      DrainFinishesTurn(count, g, choices);
    }
  }

  /** With a positive limit every index is started exactly once, in increasing order; with limit 0
      nothing is started. */
  lemma BoundedStarts(count: nat, limit: nat, choices: seq<nat>)
    ensures Starts(Bounded(count, limit, choices)) == if limit == 0 then [] else Range(0, count)
  {
    var m := Admitted(count, limit);
    var d := Drain(count, Group(m, Range(0, m), 0), choices);
    StartsConcat(StartRange(0, m), d);
    StartRangeActions(0, m);
    if limit > 0 {
      DrainStarts(count, Group(m, Range(0, m), 0), choices);
      RangeSplit(0, m, count);
    }
  }

  /** With a positive limit every index completes exactly once, so the loop ends only when all
      have completed; with limit 0 nothing completes. */
  lemma BoundedFinishes(count: nat, limit: nat, choices: seq<nat>)
    ensures forall i: nat :: multiset(Finishes(Bounded(count, limit, choices)))[i]
                           == if limit > 0 && i < count then 1 else 0
  {
    var m := Admitted(count, limit);
    var d := Drain(count, Group(m, Range(0, m), 0), choices);
    var t := Bounded(count, limit, choices);
    StartsConcat(StartRange(0, m), d);
    StartRangeActions(0, m);
    assert Finishes(t) == Finishes(d);
    if limit > 0 {
      DrainFinishes(count, Group(m, Range(0, m), 0), choices);
      RangeSplit(0, m, count);
      var all := multiset(Range(0, count));
      assert multiset(Finishes(t)) == all;
      forall i: nat ensures multiset(Finishes(t))[i] == if i < count then 1 else 0
      {
        RangeMultiplicity(0, count, i);
      }
    } else {
      assert m == 0 && d == [];
    }
  }

  // ---------------------------------------------------------------------------------------
  // The shape of the trace

  /** While draining, every start immediately follows a completion. */
  lemma {:induction false} DrainStartAfterFinish(count: nat, g: Group, choices: seq<nat>)
    requires g.next <= count
    ensures forall k :: 0 <= k < |Drain(count, g, choices)| && Drain(count, g, choices)[k].Start? ==>
      0 < k && Drain(count, g, choices)[k - 1].Finish?
    decreases 2 * (count - g.next) + |g.pending|
  {
    if |g.pending| > 0 {
      var p := Choice(choices, g.step, |g.pending|);
      var rest := Remove(g.pending, p);
      if g.next < count {
        var g' := Group(g.next + 1, rest + [g.next], g.step + 1);
        DrainStartAfterFinish(count, g', choices);
      } else {
        var g' := Group(g.next, rest, g.step + 1);
        DrainStartAfterFinish(count, g', choices);
      }
    }
  }

  /** The bounded trace first starts indices 0, ..., min(limit, count) - 1, and after that a
      start only ever follows a completion. */
  lemma BoundedAdmission(count: nat, limit: nat, choices: seq<nat>)
    ensures var t := Bounded(count, limit, choices);
      && Admitted(count, limit) <= |t|
      && (forall k :: 0 <= k < Admitted(count, limit) ==> t[k] == Start(k))
      && (forall k :: Admitted(count, limit) <= k < |t| && t[k].Start? ==> t[k - 1].Finish?)
  {
    var m := Admitted(count, limit);
    var d := Drain(count, Group(m, Range(0, m), 0), choices);
    DrainStartAfterFinish(count, Group(m, Range(0, m), 0), choices);
    RangeAt(0, m);
    var t := Bounded(count, limit, choices);
    assert t == StartRange(0, m) + d;
    forall k | m <= k < |t| && t[k].Start?
      ensures t[k - 1].Finish?
    {
      assert t[k] == d[k - m];
    }
  }

  /** A drain turn that also starts an index: the drain opens with a completion and the start
      of `g.next`, and from position 2 on it is the drain of the advanced group. */
  lemma TurnShift(count: nat, g: Group, choices: seq<nat>, k: nat)
    requires g.next < count && |g.pending| > 0 && k < |Drain(count, g, choices)|
    ensures Advance(count, g, choices).next == g.next + 1
    ensures 2 <= |Drain(count, g, choices)| && Drain(count, g, choices)[0].Finish?
    ensures Drain(count, g, choices)[1] == Start(g.next)
    ensures 2 <= k ==>
      var d := Drain(count, g, choices);
      var d' := Drain(count, Advance(count, g, choices), choices);
      && d[k] == d'[k - 2]
      && |Starts(d[..k])| == 1 + |Starts(d'[..k - 2])|
      && |d| == |d'| + 2
  {
    DrainTurn(count, g, choices);
    var p := Choice(choices, g.step, |g.pending|);
    var t := Turn(count, g, choices);
    var d := Drain(count, g, choices);
    var d' := Drain(count, Advance(count, g, choices), choices);
    assert t == [Finish(g.pending[p]), Start(g.next)];
    if 2 <= k {
      assert d[..k] == t + d'[..k - 2];
      HeadActions(g.pending[p], g.next);
      StartsConcat(t, d'[..k - 2]);
    }
  }

  /** In a drain, a completion at position `k` while an index is still unstarted is followed
      at once by the start of the next unstarted index. */
  lemma {:induction false} DrainRefillAt(count: nat, g: Group, choices: seq<nat>, k: nat)
    requires g.next <= count && k < |Drain(count, g, choices)| && Drain(count, g, choices)[k].Finish?
    requires g.next + |Starts(Drain(count, g, choices)[..k])| < count
    ensures k + 1 < |Drain(count, g, choices)|
    ensures Drain(count, g, choices)[k + 1] == Start(g.next + |Starts(Drain(count, g, choices)[..k])|)
    decreases 2 * (count - g.next) + |g.pending|
  {
    TurnShift(count, g, choices, k);
    if k == 0 {
      assert Drain(count, g, choices)[..k] == [];
    } else {
      var g' := Advance(count, g, choices);
      RemoveMultiset(g.pending, Choice(choices, g.step, |g.pending|));
      DrainRefillAt(count, g', choices, k - 2);
      TurnShift(count, g, choices, k + 1);
    }
  }

  /** The converse of `BoundedAdmission`: in the bounded trace, a completion while an index is
      still unstarted is followed at once by the start of the next unstarted index, so no slot
      falls idle while work remains. */
  lemma BoundedRefill(count: nat, limit: nat, choices: seq<nat>)
    ensures var t := Bounded(count, limit, choices);
      forall k :: 0 <= k < |t| && t[k].Finish? && |Starts(t[..k])| < count ==>
        k + 1 < |t| && t[k + 1] == Start(|Starts(t[..k])|)
  {
    var m := Admitted(count, limit);
    var s := StartRange(0, m);
    var g := Group(m, Range(0, m), 0);
    var d := Drain(count, g, choices);
    var t := Bounded(count, limit, choices);
    assert t == s + d;
    RangeAt(0, m);
    StartRangeActions(0, m);
    forall k | 0 <= k < |t| && t[k].Finish? && |Starts(t[..k])| < count
      ensures k + 1 < |t| && t[k + 1] == Start(|Starts(t[..k])|)
    {
      assert m <= k;
      assert t[..k] == s + d[..k - m];
      StartsConcat(s, d[..k - m]);
      assert t[k] == d[k - m];
      DrainRefillAt(count, g, choices, k - m);
      assert t[k + 1] == d[k + 1 - m];
    }
  }

  /** The unlimited variant starts every index at once, before anything completes. */
  lemma UnlimitedStartsAll(count: nat, choices: seq<nat>)
    ensures count <= |Bounded(count, count, choices)|
    ensures Bounded(count, count, choices)[..count] == StartRange(0, count)
    ensures Drain(count, Group(count, Range(0, count), 0), choices)
      == Bounded(count, count, choices)[count..]
  {
    assert Admitted(count, count) == count;
  }

  lemma {:induction false} DrainSingle(count: nat, i: nat, step: nat, choices: seq<nat>)
    requires i < count
    ensures Drain(count, Group(i + 1, [i], step), choices) == [Finish(i)] + Sequential(i + 1, count)
    decreases count - i
  {
    var g := Group(i + 1, [i], step);
    assert Choice(choices, step, 1) == 0;
    assert Remove([i], 0) == [];
    if i + 1 < count {
      DrainSingle(count, i + 1, step + 1, choices);
      assert [] + [i + 1] == [i + 1];
    }
  }

  /** With a limit of one the files are processed one at a time in index order, whatever the
      completion choices. */
  lemma BoundedOne(count: nat, choices: seq<nat>)
    ensures Bounded(count, 1, choices) == Sequential(0, count)
  {
    if count > 0 {
      DrainSingle(count, 0, 0, choices);
      assert Range(0, 1) == [0];
      assert StartRange(0, 1) == [Start(0)];
    }
  }
}
