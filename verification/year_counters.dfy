/** The two year counters ("from" and "to") above the dot wheel. The widget
    keeps the years of the last period it animated to in two refs. Each time
    the active index changes, a tween per counter starts from those stored
    years and heads for the new period's years, and the refs are
    overwritten with the new targets at once. The tween itself (easing,
    timing, per-frame rounding) belongs to the animation library and is not
    modelled: a tween is its start and target value. */
module YearCounters {
  import opened Periods
  import opened Selector

  /** One counter's animation: from `start` to `target`. */
  datatype Tween = Tween(start: int, target: int)

  /** The pair of tweens one index change starts. */
  datatype YearTweens = YearTweens(from: Tween, to: Tween)

  /** The widget's state: the active index and the two stored years. */
  datatype Widget = Widget(active: nat, prevFrom: int, prevTo: int)

  /** The result of a run of inputs: the final state and every tween pair
      started on the way, in order. */
  datatype Trace = Trace(widget: Widget, tweens: seq<YearTweens>)

  /** The stored years are the active period's years. */
  ghost predicate Synced(ps: Timeline, w: Widget)
  {
    w.active < |ps| && w.prevFrom == ps[w.active].from && w.prevTo == ps[w.active].to
  }

  /** Each tween pair starts where the previous one was heading, and the
      first starts at `(f, t)`. */
  ghost predicate Chained(f: int, t: int, ts: seq<YearTweens>)
  {
    && (|ts| > 0 ==> ts[0].from.start == f && ts[0].to.start == t)
    && forall k :: 0 < k < |ts| ==>
         ts[k].from.start == ts[k - 1].from.target && ts[k].to.start == ts[k - 1].to.target
  }

  /** First render and mount: index 0, refs initialised from period 0, and
      the effect's first run, a tween from period 0's years to themselves. */
  function Mount(ps: Timeline): (r: (Widget, YearTweens))
    ensures Synced(ps, r.0) && r.0.active == 0
    ensures r.1.from.start == r.1.from.target == ps[0].from
    ensures r.1.to.start == r.1.to.target == ps[0].to
  {
    (Widget(0, ps[0].from, ps[0].to),
     YearTweens(Tween(ps[0].from, ps[0].from), Tween(ps[0].to, ps[0].to)))
  }

  /** The effect that runs when the active index becomes `q`: both tweens
      start at the stored years, aim at period `q`'s years, and the refs
      take the new targets. */
  function Effect(ps: Timeline, w: Widget, q: nat): (r: (Widget, YearTweens))
    requires q < |ps|
    ensures Synced(ps, r.0) && r.0.active == q
    ensures r.1.from == Tween(w.prevFrom, ps[q].from)
    ensures r.1.to == Tween(w.prevTo, ps[q].to)
  {
    (Widget(q, ps[q].from, ps[q].to),
     YearTweens(Tween(w.prevFrom, ps[q].from), Tween(w.prevTo, ps[q].to)))
  }

  /** One input. The effect depends on the active index only, and setting
      the index to its current value does not re-render, so an input that
      leaves the index alone starts no tween. */
  function Step(ps: Timeline, w: Widget, a: Action): (r: (Widget, Option<YearTweens>))
    requires Synced(ps, w) && ValidAction(a, |ps|)
    ensures Synced(ps, r.0)
    ensures r.0.active == Press(a, w.active, |ps|)
    ensures r.1.None? <==> r.0.active == w.active
    ensures r.1.None? ==> r.0 == w
    ensures r.1.Some? ==>
      && r.1.value.from == Tween(ps[w.active].from, ps[r.0.active].from)
      && r.1.value.to == Tween(ps[w.active].to, ps[r.0.active].to)
  {
    var q := Press(a, w.active, |ps|);
    if q == w.active then (w, None)
    else
      var (w', t) := Effect(ps, w, q);
      (w', Some(t))
  }

  /** A run of inputs from state `w`. */
  function Run(ps: Timeline, w: Widget, acts: seq<Action>): (r: Trace)
    requires Synced(ps, w) && AllValid(acts, |ps|)
    ensures Synced(ps, r.widget)
    ensures r.widget.active == Reach(acts, w.active, |ps|)
    ensures |r.tweens| <= |acts|
    decreases |acts|
  {
    if acts == [] then Trace(w, [])
    else
      var (w1, t) := Step(ps, w, acts[0]);
      var rest := Run(ps, w1, acts[1..]);
      Trace(rest.widget, (if t.Some? then [t.value] else []) + rest.tweens)
  }

  /** A whole session: mount, then the inputs. */
  function Session(ps: Timeline, acts: seq<Action>): (r: Trace)
    requires AllValid(acts, |ps|)
    ensures Synced(ps, r.widget)
    ensures r.widget.active == Reach(acts, 0, |ps|)
    ensures 1 <= |r.tweens| <= |acts| + 1
  {
    var (w, t) := Mount(ps);
    var rest := Run(ps, w, acts);
    Trace(rest.widget, [t] + rest.tweens)
  }

  /** Putting a tween pair that starts at `(f, t)` in front of a chain
      that starts at its target keeps the chain. */
  lemma ChainedCons(f: int, t: int, x: YearTweens, ts: seq<YearTweens>)
    requires x.from.start == f && x.to.start == t
    requires Chained(x.from.target, x.to.target, ts)
    ensures Chained(f, t, [x] + ts)
  {
  }

  /** Dropping the first input of a valid run leaves a valid run. */
  lemma AllValidTail(acts: seq<Action>, n: nat)
    requires acts != [] && AllValid(acts, n)
    ensures ValidAction(acts[0], n) && AllValid(acts[1..], n)
  {
  }

  /** The tweens of a run form a chain: the first starts at the stored
      years, each later one starts at the previous one's target (never at a
      value shown mid-animation), and the last aims at the final period. A
      run that starts no tween leaves the state alone. */
  lemma {:induction false} RunIsChained(ps: Timeline, w: Widget, acts: seq<Action>)
    requires Synced(ps, w) && AllValid(acts, |ps|)
    ensures Chained(w.prevFrom, w.prevTo, Run(ps, w, acts).tweens)
    ensures |Run(ps, w, acts).tweens| == 0 ==> Run(ps, w, acts).widget == w
    ensures |Run(ps, w, acts).tweens| > 0 ==>
      Last(Run(ps, w, acts).tweens) == Arrival(ps, Run(ps, w, acts).widget.active)
    decreases |acts|
  {
    if acts != [] {
      AllValidTail(acts, |ps|);
      var (w1, t) := Step(ps, w, acts[0]);
      RunIsChained(ps, w1, acts[1..]);
      var rest := Run(ps, w1, acts[1..]);
      var r := Run(ps, w, acts);
      if t.Some? {
        assert r.tweens == [t.value] + rest.tweens;
        ChainedCons(w.prevFrom, w.prevTo, t.value, rest.tweens);
        if |rest.tweens| == 0 {
          assert Last(r.tweens) == (t.value.from.target, t.value.to.target);
        } else {
          assert Last(r.tweens) == Last(rest.tweens);
        }
      } else {
        assert r.tweens == rest.tweens;
      }
    }
  }

  /** Period `q`'s years as a (from, to) pair. */
  function Arrival(ps: Timeline, q: nat): (years: (int, int))
    requires q < |ps|
  {
    (ps[q].from, ps[q].to)
  }

  /** Where the last tween pair of `ts` is heading. */
  function Last(ts: seq<YearTweens>): (years: (int, int))
    requires |ts| > 0
  {
    (ts[|ts| - 1].from.target, ts[|ts| - 1].to.target)
  }

  /** Every tween of a run aims at the years of some period. */
  lemma {:induction false} RunTargetsArePeriods(ps: Timeline, w: Widget, acts: seq<Action>)
    requires Synced(ps, w) && AllValid(acts, |ps|)
    ensures forall k :: 0 <= k < |Run(ps, w, acts).tweens| ==>
      IsPeriodYears(ps, Run(ps, w, acts).tweens[k].from.target, Run(ps, w, acts).tweens[k].to.target)
    decreases |acts|
  {
    if acts != [] {
      AllValidTail(acts, |ps|);
      var (w1, t) := Step(ps, w, acts[0]);
      RunTargetsArePeriods(ps, w1, acts[1..]);
      var rest := Run(ps, w1, acts[1..]);
      var r := Run(ps, w, acts);
      if t.Some? {
        assert r.tweens == [t.value] + rest.tweens;
        forall k | 0 <= k < |r.tweens|
          ensures IsPeriodYears(ps, r.tweens[k].from.target, r.tweens[k].to.target)
        {
          if k == 0 {
            assert ps[w1.active].from == r.tweens[k].from.target;
          } else {
            assert r.tweens[k] == rest.tweens[k - 1];
            assert IsPeriodYears(ps, rest.tweens[k - 1].from.target, rest.tweens[k - 1].to.target);
          }
        }
      } else {
        assert r.tweens == rest.tweens;
      }
    }
  }

  /** Over a whole session every tween starts and ends at the years of some
      period: the mount tween stands still on period 0, each later tween
      starts at the previous target, and once the last tween settles the
      counters show the final period's years. */
  lemma SessionTweens(ps: Timeline, acts: seq<Action>)
    requires AllValid(acts, |ps|)
    ensures var r := Session(ps, acts);
      && r.tweens[0] == YearTweens(Tween(ps[0].from, ps[0].from), Tween(ps[0].to, ps[0].to))
      && Chained(ps[0].from, ps[0].to, r.tweens)
      && (forall k :: 0 <= k < |r.tweens| ==>
            IsPeriodYears(ps, r.tweens[k].from.start, r.tweens[k].to.start)
            && IsPeriodYears(ps, r.tweens[k].from.target, r.tweens[k].to.target))
      && Last(r.tweens) == Arrival(ps, r.widget.active)
  {
    var (w, t) := Mount(ps);
    RunIsChained(ps, w, acts);
    RunTargetsArePeriods(ps, w, acts);
    var rest := Run(ps, w, acts);
    var r := Session(ps, acts);
    assert r.tweens == [t] + rest.tweens;
    ChainedCons(ps[0].from, ps[0].to, t, rest.tweens);
    // Mentioning `ps[0]` supplies the witness `j := 0` for the existential.
    assert IsPeriodYears(ps, ps[0].from, ps[0].to) by {
      assert ps[0].from == ps[0].from;
    }
    forall k | 0 <= k < |r.tweens|
      ensures IsPeriodYears(ps, r.tweens[k].from.target, r.tweens[k].to.target)
      ensures IsPeriodYears(ps, r.tweens[k].from.start, r.tweens[k].to.start)
    {
      if k > 0 {
        assert r.tweens[k] == rest.tweens[k - 1];
        assert IsPeriodYears(ps, rest.tweens[k - 1].from.target, rest.tweens[k - 1].to.target);
        if k > 1 {
          assert r.tweens[k - 1] == rest.tweens[k - 2];
          assert IsPeriodYears(ps, rest.tweens[k - 2].from.target, rest.tweens[k - 2].to.target);
        }
      }
    }
    if |rest.tweens| == 0 {
      assert Last(r.tweens) == (t.from.target, t.to.target);
    } else {
      assert Last(r.tweens) == Last(rest.tweens);
    }
  }
}
