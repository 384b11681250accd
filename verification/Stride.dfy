/** The scheduler (proc.c) when no process has tickets: its stride branch, and the round robin that takes its place while
    the strides add up to 0; on one CPU with a fixed set of runnable processes. */
module Stride {

  const MAXSTRIDE: int := 1000000

  datatype Proc = Proc(runnable: bool, stride: int, pass: nat, schetimes: nat)

  // ----- one pick

  /** The scan of the process table: the first process with the smallest stride of the runnable ones below MAXSTRIDE. */
  ghost predicate Chosen(ptable: seq<Proc>, c: nat) {
    c < |ptable| && ptable[c].runnable && ptable[c].stride < MAXSTRIDE &&
    (forall i :: 0 <= i < |ptable| && ptable[i].runnable ==> ptable[c].stride <= ptable[i].stride) &&
    forall i :: 0 <= i < c && ptable[i].runnable ==> ptable[c].stride < ptable[i].stride
  }

  /** The chosen process moves on by its pass. */
  function Ran(p: Proc): Proc {
    p.(stride := p.stride + p.pass, schetimes := p.schetimes + 1)
  }

  /** One turn of the scheduler; when every runnable process has reached MAXSTRIDE nobody is chosen. */
  ghost predicate Pick(s: seq<Proc>, t: seq<Proc>) {
    if exists c: nat :: Chosen(s, c) then exists c: nat :: Chosen(s, c) && t == s[c := Ran(s[c])] else t == s
  }

  /** GetTotalStride, over the runnable processes. */
  function TotalStride(s: seq<Proc>): int {
    if s == [] then 0 else TotalStride(s[..|s| - 1]) + if s[|s| - 1].runnable then s[|s| - 1].stride else 0
  }

  /** Round robin: every runnable process runs once, and no stride changes. */
  ghost predicate AllRan(s: seq<Proc>, t: seq<Proc>) {
    |t| == |s| && forall i :: 0 <= i < |s| ==> t[i] == if s[i].runnable then s[i].(schetimes := s[i].schetimes + 1) else s[i]
  }

  ghost predicate Turn(s: seq<Proc>, t: seq<Proc>) {
    if TotalStride(s) == 0 then AllRan(s, t) else Pick(s, t)
  }

  class Scheduler {
    const ptable: array<Proc>

    constructor (n: nat)
      ensures ptable.Length == n && fresh(ptable)
    {
      ptable := new Proc[n](_ => Proc(false, 0, 0, 0));
    }

    method GetTotalStride() returns (temp: int)
      ensures temp == TotalStride(ptable[..])
    {
      temp := 0;
      var p := 0;
      while p < ptable.Length
        invariant 0 <= p <= ptable.Length && temp == TotalStride(ptable[..p])
      {
        assert ptable[..p + 1][..p] == ptable[..p];
        if ptable[p].runnable {
          temp := temp + ptable[p].stride;
        }
        p := p + 1;
      }
      assert ptable[..p] == ptable[..];
    }

    /** One round of the scheduler's loop. */
    method RunTurn()
      modifies ptable
      ensures Turn(old(ptable[..]), ptable[..])
    {
      var totalstride := GetTotalStride();
      if totalstride == 0 {
        var p := 0;
        while p < ptable.Length
          invariant 0 <= p <= ptable.Length
          invariant forall i :: 0 <= i < p ==>
                      ptable[i] == old(if ptable[i].runnable then ptable[i].(schetimes := ptable[i].schetimes + 1) else ptable[i])
          invariant forall i :: p <= i < ptable.Length ==> ptable[i] == old(ptable[i])
        {
          if ptable[p].runnable {
            ptable[p] := ptable[p].(schetimes := ptable[p].schetimes + 1);
          }
          p := p + 1;
        }
        assert AllRan(old(ptable[..]), ptable[..]);
      } else {
        var findit, schelit := RunOne();
      }
    }

    /** The stride branch: nobody runs exactly when no runnable process is below MAXSTRIDE. */
    method RunOne() returns (findit: bool, schelit: nat)
      modifies ptable
      ensures Pick(old(ptable[..]), ptable[..])
      ensures findit <==> exists i :: 0 <= i < ptable.Length && old(ptable[i].runnable && ptable[i].stride < MAXSTRIDE)
      ensures findit ==> Chosen(old(ptable[..]), schelit) && ptable[..] == old(ptable[..])[schelit := Ran(old(ptable[..])[schelit])]
      ensures !findit ==> ptable[..] == old(ptable[..])
    {
      var smallest := MAXSTRIDE;
      findit, schelit := false, 0;
      var p := 0;
      while p < ptable.Length
        invariant 0 <= p <= ptable.Length && ptable[..] == old(ptable[..])
        invariant !findit ==> smallest == MAXSTRIDE && forall i :: 0 <= i < p && ptable[i].runnable ==> ptable[i].stride >= MAXSTRIDE
        invariant findit ==> schelit < p && ptable[schelit].runnable && smallest == ptable[schelit].stride < MAXSTRIDE
        invariant findit ==> forall i :: 0 <= i < p && ptable[i].runnable ==> smallest <= ptable[i].stride
        invariant findit ==> forall i :: 0 <= i < schelit && ptable[i].runnable ==> smallest < ptable[i].stride
      {
        if ptable[p].runnable && ptable[p].stride < smallest {
          smallest := ptable[p].stride;
          schelit := p;
          findit := true;
        }
        p := p + 1;
      }
      if findit {
        assert Chosen(old(ptable[..]), schelit);
        ptable[schelit] := Ran(ptable[schelit]);
      }
    }
  }

  // ----- runs

  ghost predicate IsTurns(run: seq<seq<Proc>>) {
    |run| > 0 && forall k: nat :: k + 1 < |run| ==> Turn(run[k], run[k + 1])
  }

  /** A run in which the strides never add up to 0 where the scheduler looks. */
  ghost predicate IsRun(run: seq<seq<Proc>>) {
    |run| > 0 && forall k: nat :: k + 1 < |run| ==> TotalStride(run[k]) != 0 && Pick(run[k], run[k + 1])
  }

  ghost predicate NoneNegative(s: seq<Proc>) {
    forall i :: 0 <= i < |s| && s[i].runnable ==> s[i].stride >= 0
  }

  lemma {:induction false} TotalUpdate(s: seq<Proc>, i: nat, q: Proc)
    requires i < |s| && s[i].runnable && q.runnable
    ensures TotalStride(s[i := q]) == TotalStride(s) - s[i].stride + q.stride
  {
    var n := |s| - 1;
    if i == n {
      assert s[i := q][..n] == s[..n];
    } else {
      assert s[i := q][..n] == s[..n][i := q];
      TotalUpdate(s[..n], i, q);
    }
  }

  lemma PickTotal(s: seq<Proc>, t: seq<Proc>)
    requires Pick(s, t) && NoneNegative(s)
    ensures NoneNegative(t) && TotalStride(t) >= TotalStride(s)
  {
    if exists c: nat :: Chosen(s, c) {
      var c: nat :| Chosen(s, c) && t == s[c := Ran(s[c])];
      TotalUpdate(s, c, Ran(s[c]));
    }
  }

  /** Strides that are not negative and not all 0 stay so: round robin never takes over. */
  lemma {:induction false} NoRoundRobin(run: seq<seq<Proc>>, k: nat)
    requires IsTurns(run) && NoneNegative(run[0]) && TotalStride(run[0]) > 0 && k < |run|
    ensures NoneNegative(run[k]) && TotalStride(run[k]) > 0 && IsRun(run[..k + 1])
  {
    if k > 0 {
      NoRoundRobin(run, k - 1);
      assert Turn(run[k - 1], run[k - 1 + 1]);
      PickTotal(run[k - 1], run[k]);
      assert run[..k + 1][..k] == run[..k];
      forall j: nat | j + 1 < k + 1 ensures TotalStride(run[j]) != 0 && Pick(run[j], run[j + 1]) {
        if j + 1 < k { assert TotalStride(run[..k][j]) != 0 && Pick(run[..k][j], run[..k][j + 1]); }
      }
    }
  }

  function Max(a: int, b: int): int {
    if a < b then b else a
  }

  /** The processes stay the same, run by run, but for how often they ran; their strides say exactly how often. */
  ghost predicate SamePicks(s: seq<Proc>, t: seq<Proc>) {
    |t| == |s| && forall i :: 0 <= i < |s| ==>
      t[i].runnable == s[i].runnable && t[i].pass == s[i].pass && s[i].schetimes <= t[i].schetimes &&
      t[i].stride - s[i].stride == (t[i].schetimes - s[i].schetimes) * s[i].pass
  }

  lemma PickSame(s: seq<Proc>, t: seq<Proc>, u: seq<Proc>)
    requires SamePicks(s, t) && Pick(t, u)
    ensures SamePicks(s, u)
  {
    if exists c: nat :: Chosen(t, c) {
      var c: nat :| Chosen(t, c) && u == t[c := Ran(t[c])];
      OneMore(t[c].schetimes - s[c].schetimes, s[c].pass);
    }
  }

  lemma OneMore(n: nat, pass: nat)
    ensures (n + 1) * pass == n * pass + pass
  {}

  /** No runnable process gets further ahead of another than one pass of its own, or than it was at the start. */
  ghost predicate Close(s: seq<Proc>, t: seq<Proc>) {
    |t| == |s| && forall i, j :: 0 <= i < |s| && 0 <= j < |s| && s[i].runnable && s[j].runnable ==>
      t[i].stride - t[j].stride <= Max(s[i].stride - s[j].stride, s[i].pass)
  }

  lemma PickClose(s: seq<Proc>, t: seq<Proc>, u: seq<Proc>)
    requires SamePicks(s, t) && Close(s, t) && Pick(t, u)
    ensures Close(s, u)
  {
    if exists c: nat :: Chosen(t, c) {
      var c: nat :| Chosen(t, c) && u == t[c := Ran(t[c])];
    }
  }

  /** After any number of turns. */
  lemma {:induction false} RunClose(run: seq<seq<Proc>>, k: nat)
    requires IsRun(run) && k < |run|
    ensures SamePicks(run[0], run[k]) && Close(run[0], run[k])
  {
    if k > 0 {
      RunClose(run, k - 1);
      assert Pick(run[k - 1], run[k - 1 + 1]);
      PickSame(run[0], run[k - 1], run[k]);
      PickClose(run[0], run[k - 1], run[k]);
    }
  }

  /** The times two runnable processes ran since the start, weighed by their passes, never differ by more than a constant. */
  lemma Fair(run: seq<seq<Proc>>, k: nat, i: nat, j: nat)
    requires IsRun(run) && k < |run| && i < |run[0]| && j < |run[0]| && run[0][i].runnable && run[0][j].runnable
    ensures |run[k]| == |run[0]|
    ensures var s, t := run[0], run[k];
            (t[i].schetimes - s[i].schetimes) * s[i].pass - (t[j].schetimes - s[j].schetimes) * s[j].pass
              <= Max(0, s[i].pass - (s[i].stride - s[j].stride))
  {
    RunClose(run, k);
    var s, t := run[0], run[k];
    assert t[i].stride - t[j].stride <= Max(s[i].stride - s[j].stride, s[i].pass);
  }

  /** The scheduler never idles while every stride stays below MAXSTRIDE; once all runnable processes have reached it, no
      turn chooses anybody again. */
  lemma {:induction false} Stuck(run: seq<seq<Proc>>, k: nat, m: nat)
    requires IsRun(run) && k <= m < |run| && AllDone(run[k])
    ensures run[m] == run[k]
  {
    if k < m {
      Stuck(run, k, m - 1);
      assert Pick(run[m - 1], run[m - 1 + 1]);
      forall c: nat ensures !Chosen(run[k], c) {}
    }
  }

  // ----- every table gets stuck

  /** How far the runnable processes are from MAXSTRIDE. */
  function Slack(s: seq<Proc>): nat {
    if s == [] then 0
    else Slack(s[..|s| - 1]) + var p := s[|s| - 1]; if p.runnable && p.stride < MAXSTRIDE then MAXSTRIDE - p.stride else 0
  }

  lemma {:induction false} SlackFalls(s: seq<Proc>, i: nat)
    requires i < |s| && s[i].runnable && s[i].stride < MAXSTRIDE && s[i].pass > 0
    ensures Slack(s[i := Ran(s[i])]) < Slack(s)
  {
    var n := |s| - 1;
    if i == n {
      assert s[i := Ran(s[i])][..n] == s[..n];
    } else {
      assert s[i := Ran(s[i])][..n] == s[..n][i := Ran(s[i])];
      SlackFalls(s[..n], i);
    }
  }

  ghost predicate AllDone(s: seq<Proc>) {
    forall i :: 0 <= i < |s| && s[i].runnable ==> s[i].stride >= MAXSTRIDE
  }

  /** The one the scan chooses, if any runnable process is below MAXSTRIDE. */
  lemma {:induction false} ChosenOf(s: seq<Proc>, n: nat) returns (c: nat)
    requires n <= |s| && exists i :: 0 <= i < n && s[i].runnable && s[i].stride < MAXSTRIDE
    ensures c < n && s[c].runnable && s[c].stride < MAXSTRIDE
    ensures forall i :: 0 <= i < n && s[i].runnable ==> s[c].stride <= s[i].stride
    ensures forall i :: 0 <= i < c && s[i].runnable ==> s[c].stride < s[i].stride
  {
    if exists i :: 0 <= i < n - 1 && s[i].runnable && s[i].stride < MAXSTRIDE {
      c := ChosenOf(s, n - 1);
      if s[n - 1].runnable && s[n - 1].stride < s[c].stride { c := n - 1; }
    } else {
      c := n - 1;
    }
  }

  /** Processes with positive passes and strides that add up to more than 0 always end up stuck, from whatever strides
      they start: there is a run to a table in which all runnable strides have reached MAXSTRIDE. */
  lemma {:induction false} GetsStuck(s: seq<Proc>) returns (run: seq<seq<Proc>>)
    requires NoneNegative(s) && TotalStride(s) > 0 && forall i :: 0 <= i < |s| && s[i].runnable ==> s[i].pass > 0
    ensures IsRun(run) && run[0] == s && AllDone(run[|run| - 1])
    decreases Slack(s)
  {
    hide IsRun, TotalStride;
    if AllDone(s) {
      run := [s];
      RunStarts(s);
    } else {
      var c := ChosenOf(s, |s|);
      var t := s[c := Ran(s[c])];
      assert Chosen(s, c) && Pick(s, t);
      PickTotal(s, t);
      SlackFalls(s, c);
      var rest := GetsStuck(t);
      run := [s] + rest;
      RunExtends(s, t, rest);
    }
  }

  lemma RunStarts(s: seq<Proc>)
    ensures IsRun([s])
  {}

  lemma RunExtends(s: seq<Proc>, t: seq<Proc>, rest: seq<seq<Proc>>)
    requires IsRun(rest) && rest[0] == t && TotalStride(s) != 0 && Pick(s, t)
    ensures IsRun([s] + rest) && ([s] + rest)[|rest|] == rest[|rest| - 1]
  {
    hide TotalStride, Pick;
    var run := [s] + rest;
    forall k: nat | k + 1 < |run| ensures TotalStride(run[k]) != 0 && Pick(run[k], run[k + 1]) {
      if k > 0 { assert TotalStride(rest[k - 1]) != 0 && Pick(rest[k - 1], rest[k - 1 + 1]); }
    }
  }
}
