// Cumulative counters that may be reset behind the reader's back.
module Counters {

  // The rule both eBPF methods use: a counter that decreased restarts from 0.
  function Delta(prev: nat, cur: nat): nat
  {
    if cur < prev then cur else cur - prev
  }

  datatype Event = Count(n: nat) | Reset | Read

  // The counter, what the reader remembers of it, the deltas it has summed, and
  // two amounts nobody sees: everything counted since the baseline, and how
  // much of that the last read could know about.
  datatype Track = Track(value: nat, prev: nat, summed: nat, counted: nat, countedAtRead: nat)

  function Begin(baseline: nat): Track { Track(baseline, baseline, 0, 0, 0) }

  function Next(t: Track, e: Event): Track
  {
    match e
    case Count(n) => t.(value := t.value + n, counted := t.counted + n)
    case Reset => t.(value := 0)
    case Read => t.(prev := t.value, summed := t.summed + Delta(t.prev, t.value), countedAtRead := t.counted)
  }

  function After(t: Track, es: seq<Event>): Track
  {
    if es == [] then t else Next(After(t, es[..|es| - 1]), es[|es| - 1])
  }

  // What one interval between reads looks like from outside: either the counter
  // moved by the amount counted, or it was reset and holds only a part of it.
  predicate Plausible(prev: nat, cur: nat, amount: nat)
  {
    cur == prev + amount || cur <= amount
  }

  lemma {:induction false} DeltaAtMost(prev: nat, cur: nat, amount: nat)
    requires Plausible(prev, cur, amount)
    ensures Delta(prev, cur) <= amount
  {
  }

  lemma {:induction false} Interval(baseline: nat, es: seq<Event>)
    ensures var t := After(Begin(baseline), es);
      && t.countedAtRead <= t.counted
      && Plausible(t.prev, t.value, t.counted - t.countedAtRead)
      && t.summed <= t.countedAtRead
  {
    if es != [] {
      Interval(baseline, es[..|es| - 1]);
    }
  }

  // However the counter is reset between or during intervals, the summed deltas
  // never exceed what was really counted by the time of the last read.
  lemma {:induction false} NeverOverCounts(baseline: nat, es: seq<Event>)
    ensures var t := After(Begin(baseline), es);
      t.summed <= t.countedAtRead <= t.counted
  {
    Interval(baseline, es);
  }

  // Without a reset nothing is missed: the sum is last minus baseline, and that
  // is the amount counted.
  lemma {:induction false} ExactWithoutReset(baseline: nat, es: seq<Event>)
    requires forall i :: 0 <= i < |es| ==> !es[i].Reset?
    ensures var t := After(Begin(baseline), es);
      t.summed == t.prev - baseline == t.countedAtRead && t.value == baseline + t.counted && t.prev <= t.value
  {
    if es != [] {
      ExactWithoutReset(baseline, es[..|es| - 1]);
    }
  }

  // ---------- what the reader saw ----------

  // The values read, baseline first.
  function Shown(baseline: nat, es: seq<Event>): (vs: seq<nat>)
    ensures |vs| > 0 && vs[0] == baseline
  {
    if es == [] then [baseline]
    else
      var n := |es| - 1;
      Shown(baseline, es[..n]) + if es[n].Read? then [After(Begin(baseline), es[..n]).value] else []
  }

  // Everything counted since the baseline, at the moments of those reads.
  function CountedAt(baseline: nat, es: seq<Event>): (cs: seq<nat>)
    ensures |cs| == |Shown(baseline, es)| && cs[0] == 0
  {
    if es == [] then [0]
    else
      var n := |es| - 1;
      CountedAt(baseline, es[..n]) + if es[n].Read? then [After(Begin(baseline), es[..n]).counted] else []
  }

  // Between any two reads the counter moved by what was counted, or was reset and
  // shows a part of it; and the last of them is where the reader stands.
  lemma {:induction false} ReadsPlausible(baseline: nat, es: seq<Event>)
    ensures var vs, cs, t := Shown(baseline, es), CountedAt(baseline, es), After(Begin(baseline), es);
      && vs[|vs| - 1] == t.prev && cs[|vs| - 1] == t.countedAtRead
      && forall i :: 0 < i < |vs| ==> cs[i - 1] <= cs[i] && Plausible(vs[i - 1], vs[i], cs[i] - cs[i - 1])
  {
    hide Plausible, Delta;
    if es != [] {
      ReadsPlausible(baseline, es[..|es| - 1]);
      Interval(baseline, es[..|es| - 1]);
    }
  }

  lemma {:induction false} NeverDecreases(baseline: nat, es: seq<Event>)
    requires forall i :: 0 <= i < |es| ==> !es[i].Reset?
    ensures var vs := Shown(baseline, es); forall i :: 0 < i < |vs| ==> vs[i - 1] <= vs[i]
  {
    if es != [] {
      var n := |es| - 1;
      NeverDecreases(baseline, es[..n]);
      ExactWithoutReset(baseline, es[..n]);
      ReadsPlausible(baseline, es[..n]);
    }
  }

  // ---------- one interval with resets ----------

  // What was counted since the last reset, or since the start if there was none.
  function SinceReset(es: seq<Event>): nat
  {
    if es == [] then 0
    else
      var rest := SinceReset(es[..|es| - 1]);
      match es[|es| - 1]
      case Count(n) => rest + n
      case Reset => 0
      case Read => rest
  }

  lemma {:induction false} AfterInterval(t: Track, es: seq<Event>)
    requires forall i :: 0 <= i < |es| ==> !es[i].Read?
    ensures After(t, es).prev == t.prev
    ensures After(t, es).value == SinceReset(es) + if exists i :: 0 <= i < |es| && es[i].Reset? then 0 else t.value
  {
    if es != [] {
      var n := |es| - 1;
      AfterInterval(t, es[..n]);
      if i :| 0 <= i < n && es[i].Reset? { assert es[..n][i].Reset?; }
    }
  }

  // The delta of an interval without a reset is all that was counted in it.  With
  // resets it is what was counted since the last one if the counter shows less
  // than before, and otherwise that much less what it showed before; so it covers
  // what was counted since the last reset exactly if the decrease is seen, or the
  // counter stood at 0.
  lemma {:induction false} DeltaOfInterval(t: Track, es: seq<Event>)
    requires t.prev == t.value && forall i :: 0 <= i < |es| ==> !es[i].Read?
    ensures var reset := exists i :: 0 <= i < |es| && es[i].Reset?;
            var since := SinceReset(es);
            var delta := Delta(t.prev, After(t, es).value);
      && (!reset ==> delta == since)
      && (reset ==> delta == if since < t.prev then since else since - t.prev)
      && (delta >= since <==> !reset || since < t.prev || t.prev == 0)
  {
    AfterInterval(t, es);
  }
}
