/** A finite step relation can be ranked downwards exactly when it has no cycle. */
module Rankings {

  ghost predicate IsWalk<T>(walk: seq<T>, step: (T, T) -> bool) {
    forall i :: 0 < i < |walk| ==> StepsTo(walk, i, step)
  }

  ghost predicate StepsTo<T>(walk: seq<T>, i: int, step: (T, T) -> bool) {
    0 < i < |walk| && step(walk[i - 1], walk[i])
  }

  ghost predicate HasCycle<T(!new)>(nodes: set<T>, step: (T, T) -> bool) {
    exists walk :: Cycle(walk, nodes, step)
  }

  /** At least one step, back to where it began. */
  ghost predicate Cycle<T>(walk: seq<T>, nodes: set<T>, step: (T, T) -> bool) {
    |walk| > 1 && IsWalk(walk, step) && walk[0] == walk[|walk| - 1] && walk[0] in nodes
  }

  /** Every step from `nodes` stays there and goes down. */
  ghost predicate GoesDown<T(!new)>(ranks: map<T, nat>, nodes: set<T>, step: (T, T) -> bool) {
    ranks.Keys == nodes && forall n, m :: n in nodes && step(n, m) ==> m in nodes && ranks[m] < ranks[n]
  }

  lemma {:induction false} WalkGoesDown<T(!new)>(walk: seq<T>, ranks: map<T, nat>, nodes: set<T>, step: (T, T) -> bool)
    requires GoesDown(ranks, nodes, step) && walk != [] && IsWalk(walk, step) && walk[0] in nodes
    ensures walk[|walk| - 1] in nodes && ranks[walk[|walk| - 1]] + |walk| - 1 <= ranks[walk[0]]
  {
    if |walk| > 1 {
      assert StepsTo(walk, 1, step);
      var rest := walk[1..];
      forall i | 0 < i < |rest| ensures StepsTo(rest, i, step) {
        assert StepsTo(walk, i + 1, step);
      }
      WalkGoesDown(rest, ranks, nodes, step);
    }
  }

  /** A node of `s` none of whose steps stays in `s`. */
  ghost predicate Sink<T>(n: T, s: set<T>, step: (T, T) -> bool) {
    n in s && forall m :: m in s ==> !step(n, m)
  }

  /** Without a sink, a walk inside `s` can always go on. */
  lemma {:induction false} LongWalk<T(!new)>(s: set<T>, step: (T, T) -> bool, steps: nat) returns (walk: seq<T>)
    requires s != {} && forall n :: n in s ==> !Sink(n, s, step)
    ensures |walk| == steps + 1 && IsWalk(walk, step) && forall i :: 0 <= i < |walk| ==> walk[i] in s
  {
    if steps == 0 {
      var n :| n in s;
      walk := [n];
    } else {
      var w := LongWalk(s, step, steps - 1);
      assert !Sink(w[|w| - 1], s, step);
      var m :| m in s && step(w[|w| - 1], m);
      walk := w + [m];
      forall i | 0 < i < |walk| ensures StepsTo(walk, i, step) {
        assert i < |w| ==> StepsTo(w, i, step);
      }
    }
  }

  lemma {:induction false} Pigeonhole<T>(walk: seq<T>, s: set<T>) returns (i: nat, j: nat)
    requires |walk| > |s| && forall k :: 0 <= k < |walk| ==> walk[k] in s
    ensures i < j < |walk| && walk[i] == walk[j]
    decreases |walk|
  {
    var last := |walk| - 1;
    if k :| 0 <= k < last && walk[k] == walk[last] {
      return k, last;
    }
    i, j := Pigeonhole(walk[..last], s - {walk[last]});
  }

  lemma NoSinkMeansCycle<T(!new)>(s: set<T>, step: (T, T) -> bool)
    requires s != {}
    ensures (forall n :: n in s ==> !Sink(n, s, step)) ==> HasCycle(s, step)
  {
    hide Sink;
    if forall n :: n in s ==> !Sink(n, s, step) {
      var walk := LongWalk(s, step, |s|);
      var i, j := Pigeonhole(walk, s);
      var loop := walk[i..j + 1];
      forall k | 0 < k < |loop| ensures StepsTo(loop, k, step) {
        assert StepsTo(walk, i + k, step);
      }
      assert Cycle(loop, s, step);
    }
  }

  /** Sinks first: a ranking of the steps within `s`. */
  lemma {:induction false} RankingOf<T(!new)>(s: set<T>, step: (T, T) -> bool) returns (ranks: map<T, nat>)
    requires !HasCycle(s, step)
    ensures ranks.Keys == s && forall n, m :: n in s && m in s && step(n, m) ==> ranks[m] < ranks[n]
    decreases |s|
  {
    if s == {} {
      return map[];
    }
    NoSinkMeansCycle(s, step);
    var sink :| sink in s && Sink(sink, s, step);
    var rest := s - {sink};
    assert forall walk :: Cycle(walk, rest, step) ==> Cycle(walk, s, step);
    var below := RankingOf(rest, step);
    ranks := map n | n in s :: if n == sink then 0 else below[n] + 1;
  }

  lemma GoesDownExactly<T(!new)>(nodes: set<T>, step: (T, T) -> bool)
    requires forall n, m :: n in nodes && step(n, m) ==> m in nodes
    ensures (exists ranks :: GoesDown(ranks, nodes, step)) <==> !HasCycle(nodes, step)
  {
    if HasCycle(nodes, step) {
      var walk :| Cycle(walk, nodes, step);
      forall ranks ensures !GoesDown(ranks, nodes, step) {
        if GoesDown(ranks, nodes, step) { WalkGoesDown(walk, ranks, nodes, step); }
      }
    } else {
      var ranks := RankingOf(nodes, step);
      assert GoesDown(ranks, nodes, step);
    }
  }
}
