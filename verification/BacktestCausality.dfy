/** A backtest never looks ahead: what it has produced at an instant does not depend on
    anything after that instant. */
module BacktestCausality {
  import opened Options
  import opened Sorting
  import opened RiskEngine
  import opened Mandates
  import opened Execution
  import opened MarketData
  import opened Backtest

  /** Everything the run has put out so far is kept, in place, by what comes later. */
  ghost predicate Extends(earlier: State, later: State) {
    && earlier.timestamps <= later.timestamps
    && earlier.equity <= later.equity
    && earlier.benchmark <= later.benchmark
    && earlier.cycles <= later.cycles
  }

  lemma {:induction false} ApplyAllKeeps(st: State, events: seq<MarketEvent>)
    ensures var told := ApplyAll(st, events);
      told == st.(prices := told.prices, history := told.history) && told.history.Keys == st.history.Keys
  {
    if events != [] { ApplyAllKeeps(st, events[..|events| - 1]); }
  }

  lemma FlushExtends(st: State, stamp: int, pending: seq<MarketEvent>, config: BacktestConfig, env: Environment)
    ensures var r := Flush(st, stamp, pending, config, env);
      r.Success? ==> Extends(st, r.value) && r.value.now == stamp
  {
    hide Rebalance, ApplyAll, AllPrinted, Ready, TotalValue;
    ApplyAllKeeps(st.(now := stamp), pending);
  }

  lemma FeedExtends(loop: Loop, e: MarketEvent, config: BacktestConfig, env: Environment)
    ensures var r := Feed(loop, e, config, env);
      r.Success? ==> Extends(loop.state, r.value.state) && r.value.stamp == Some(e.timestamp) && r.value.pending != []
  {
    hide Flush;
    if loop.stamp.Some? { FlushExtends(loop.state, loop.stamp.value, loop.pending, config, env); }
  }

  lemma FinishExtends(loop: Loop, config: BacktestConfig, env: Environment)
    ensures Finish(loop, config, env).Success? ==> Extends(loop.state, Finish(loop, config, env).value)
  {
    hide Flush;
    if loop.stamp.Some? { FlushExtends(loop.state, loop.stamp.value, loop.pending, config, env); }
  }

  lemma ReplayStamp(events: seq<MarketEvent>, config: BacktestConfig, env: Environment)
    requires events != [] && Replay(events, config, env).Success?
    ensures var loop := Replay(events, config, env).value;
      loop.stamp == Some(events[|events| - 1].timestamp) && loop.pending != []
  {
    hide Feed;
    FeedExtends(Replay(events[..|events| - 1], config, env).value, events[|events| - 1], config, env);
  }

  /** Feeding more events only adds output, and an error once raised stays the outcome. */
  lemma {:induction false} ReplayMore(pre: seq<MarketEvent>, post: seq<MarketEvent>, config: BacktestConfig, env: Environment)
    ensures Replay(pre, config, env).Failure? ==> Replay(pre + post, config, env) == Replay(pre, config, env)
    ensures Replay(pre + post, config, env).Success? ==>
              Replay(pre, config, env).Success? && Extends(Replay(pre, config, env).value.state, Replay(pre + post, config, env).value.state)
    decreases |post|
  {
    hide Feed;
    if post == [] {
      assert pre + post == pre;
    } else {
      var front, e := post[..|post| - 1], post[|post| - 1];
      ReplayMore(pre, front, config, env);
      assert pre + post == (pre + front) + [e];
      assert (pre + post)[..|pre + post| - 1] == pre + front;
      if Replay(pre + front, config, env).Success? {
        FeedExtends(Replay(pre + front, config, env).value, e, config, env);
      }
    }
  }

  /** Causality: cut any stream at a timestamp boundary. If the earlier part raises, so does
      the whole, in the same way; otherwise every timestamp, mark, benchmark point and
      cycle record of the earlier part stands unchanged at the front of the whole run's,
      for any deterministic views, optimizer and executor. */
  lemma Causality(pre: seq<MarketEvent>, post: seq<MarketEvent>, config: BacktestConfig, env: Environment)
    requires pre != [] && post != [] ==> pre[|pre| - 1].timestamp != post[0].timestamp
    ensures Played(pre, config, env).Failure? ==> Played(pre + post, config, env) == Played(pre, config, env)
    ensures Played(pre + post, config, env).Success? ==>
              Played(pre, config, env).Success? && Extends(Played(pre, config, env).value, Played(pre + post, config, env).value)
  {
    hide Played, Extends;
    if post == [] {
      assert pre + post == pre;
      if Played(pre, config, env).Success? { ExtendsItself(Played(pre, config, env).value); }
    } else if pre == [] {
      assert pre + post == post;
      CausalityFromNothing(post, config, env);
    } else {
      CausalityAtCut(pre, post, config, env);
    }
  }

  lemma ExtendsItself(st: State)
    ensures Extends(st, st)
  {
  }

  lemma CausalityFromNothing(post: seq<MarketEvent>, config: BacktestConfig, env: Environment)
    ensures Played([], config, env).Success?
    ensures Played(post, config, env).Success? ==> Extends(Played([], config, env).value, Played(post, config, env).value)
  {
    hide Flush, Feed;
    assert [] + post == post;
    ReplayMore([], post, config, env);
    if Replay(post, config, env).Success? { FinishExtends(Replay(post, config, env).value, config, env); }
  }

  lemma CausalityAtCut(pre: seq<MarketEvent>, post: seq<MarketEvent>, config: BacktestConfig, env: Environment)
    requires pre != [] && post != [] && pre[|pre| - 1].timestamp != post[0].timestamp
    ensures Played(pre, config, env).Failure? ==> Played(pre + post, config, env) == Played(pre, config, env)
    ensures Played(pre + post, config, env).Success? ==>
              Played(pre, config, env).Success? && Extends(Played(pre, config, env).value, Played(pre + post, config, env).value)
  {
    hide Flush;
    var cut, rest := pre + [post[0]], post[1..];
    assert pre + post == cut + rest;
    assert cut[..|cut| - 1] == pre && cut[|cut| - 1] == post[0];
    ReplayMore(pre, post, config, env);
    ReplayMore(cut, rest, config, env);
    if Replay(pre, config, env).Success? {
      ReplayStamp(pre, config, env);
      var loop := Replay(pre, config, env).value;
      assert Played(pre, config, env) == Flush(loop.state, loop.stamp.value, loop.pending, config, env);
      if Replay(cut, config, env).Success? {
        assert Replay(cut, config, env).value.state == Played(pre, config, env).value;
      }
      if Replay(pre + post, config, env).Success? {
        FinishExtends(Replay(pre + post, config, env).value, config, env);
      }
    }
  }

  /** The whole promise, from unsorted events: a run to `mid` sees a prefix of what a run to
      `end` produces, and events after `mid` may be added, removed or changed without
      touching it. */
  lemma BacktestIsCausal(xs: seq<MarketEvent>, ys: seq<MarketEvent>, mid: int, end: int, config: BacktestConfig, env: Environment)
    requires config.start <= mid <= end
    requires Filter(InWindow(config.start, mid), xs) == Filter(InWindow(config.start, mid), ys)
    ensures var early := Played(Stream(FromEvents(xs), config.start, mid).value, config, env);
      var full := Played(Stream(FromEvents(ys), config.start, end).value, config, env);
      && (early.Failure? ==> full == early)
      && (full.Success? ==> early.Success? && Extends(early.value, full.value))
  {
    hide Played, Extends, Sort;
    StreamIgnoresTheFuture(xs, ys, config.start, mid);
    ShorterWindowIsPrefix(ys, config.start, mid, end);
    var short, long := Stream(FromEvents(ys), config.start, mid).value, Stream(FromEvents(ys), config.start, end).value;
    var post := long[|short|..];
    assert long == short + post;
    if short != [] && post != [] { assert post[0] == long[|short|]; }
    Causality(short, post, config, env);
  }

  // ----- the clock

  lemma RebalanceError(st: State, stamp: int, config: BacktestConfig, env: Environment)
    ensures Rebalance(st, stamp, config, env).Failure? ==> Rebalance(st, stamp, config, env).error in {BadMandate, ExecutionFailed}
  {
    hide TotalValue, Observations, CurrentWeights, ContextOf, NoTradeRecord, Evaluate, BuildMandate, Usable, Depth;
  }

  lemma FlushError(st: State, stamp: int, pending: seq<MarketEvent>, config: BacktestConfig, env: Environment)
    ensures Flush(st, stamp, pending, config, env) == Failure(ClockMovedBackwards) <==> stamp < st.now
  {
    hide ApplyAll, AllPrinted, Ready, TotalValue, Rebalance;
    var told := ApplyAll(st.(now := stamp), pending);
    var marked := Mark(told, stamp, config);
    if marked.Success? {
      RebalanceError(marked.value.(lastRebalanceIndex := marked.value.barsSeen), stamp, config, env);
    }
  }

  lemma {:induction false} ReplayClock(events: seq<MarketEvent>, config: BacktestConfig, env: Environment)
    requires TimeOrdered(events) && forall i :: 0 <= i < |events| ==> config.start <= events[i].timestamp
    ensures Replay(events, config, env) != Failure(ClockMovedBackwards)
    ensures Replay(events, config, env).Success? ==>
              var loop := Replay(events, config, env).value;
              && config.start <= loop.state.now
              && (events == [] ==> loop.state.now == config.start && loop.stamp == None)
              && (events != [] ==> loop.state.now <= events[|events| - 1].timestamp)
  {
    hide Flush;
    if events != [] {
      var front, e := events[..|events| - 1], events[|events| - 1];
      ReplayClock(front, config, env);
      if Replay(front, config, env).Success? {
        var loop := Replay(front, config, env).value;
        if front != [] { ReplayStamp(front, config, env); }
        if loop.stamp.Some? {
          FlushError(loop.state, loop.stamp.value, loop.pending, config, env);
          FlushExtends(loop.state, loop.stamp.value, loop.pending, config, env);
        }
      }
    }
  }

  /** On a time-ordered stream within the window, the simulation clock never raises. */
  lemma ClockNeverRaises(events: seq<MarketEvent>, config: BacktestConfig, env: Environment)
    requires TimeOrdered(events) && forall i :: 0 <= i < |events| ==> config.start <= events[i].timestamp
    ensures Played(events, config, env) != Failure(ClockMovedBackwards)
  {
    hide Flush;
    ReplayClock(events, config, env);
    if events != [] && Replay(events, config, env).Success? {
      ReplayStamp(events, config, env);
      var loop := Replay(events, config, env).value;
      FlushError(loop.state, loop.stamp.value, loop.pending, config, env);
    }
  }
}
