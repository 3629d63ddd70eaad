/** The client-side rate limiter (src/llm/base.py); time in seconds. */
module TokenBuckets {
  import opened Arithmetic
  import opened Options

  datatype Bucket = Bucket(capacity: int, refillPerSecond: real, tokens: real, last: Option<real>) {
    /** What construction accepts. */
    predicate Constructible() {
      0 < capacity && 0.0 < refillPerSecond
    }

    predicate InBounds() {
      0.0 <= tokens <= capacity as real
    }
  }

  function NewBucket(capacity: int, refillPerSecond: real): Bucket {
    Bucket(capacity, refillPerSecond, capacity as real, None)
  }

  /** What a stretch of time adds. */
  function Earned(rate: real, from: real, to: real): real {
    (to - from) * rate
  }

  function Refilled(b: Bucket, now: real): Bucket {
    if b.last.Some? && now - b.last.value > 0.0
    then b.(tokens := Min(b.capacity as real, b.tokens + Earned(b.refillPerSecond, b.last.value, now)), last := Some(now))
    else b.(last := Some(now))
  }

  function Take(b: Bucket, now: real, tokens: int): (Bucket, bool) {
    var full := Refilled(b, now);
    if full.tokens >= tokens as real then (full.(tokens := full.tokens - tokens as real), true) else (full, false)
  }

  datatype BucketError = NotPositive

  class TokenBucket {
    const capacity: int
    const refillPerSecond: real
    var tokens: real
    var last: Option<real>

    ghost function View(): Bucket
      reads this
    {
      Bucket(capacity, refillPerSecond, tokens, last)
    }

    constructor (capacity: int, refillPerSecond: real)
      ensures View() == NewBucket(capacity, refillPerSecond)
    {
      this.capacity, this.refillPerSecond := capacity, refillPerSecond;
      tokens, last := capacity as real, None;
    }

    /** Construction raises unless both parameters are positive. */
    static method Open(capacity: int, refillPerSecond: real) returns (r: Result<TokenBucket, BucketError>)
      ensures r.Success? <==> 0 < capacity && 0.0 < refillPerSecond
      ensures r.Success? ==> fresh(r.value) && r.value.View().Constructible() && r.value.View().InBounds()
      ensures r.Success? ==> r.value.View() == NewBucket(capacity, refillPerSecond)
    {
      if capacity <= 0 || refillPerSecond <= 0.0 {
        return Failure(NotPositive);
      }
      var bucket := new TokenBucket(capacity, refillPerSecond);
      r := Success(bucket);
    }

    method Refill(now: real)
      modifies this
      ensures View() == Refilled(old(View()), now)
    {
      if last.Some? {
        var elapsed := now - last.value;
        if elapsed > 0.0 {
          tokens := Min(capacity as real, tokens + Earned(refillPerSecond, last.value, now));
        }
      }
      last := Some(now);
    }

    method TryTake(n: int, now: real) returns (granted: bool)
      modifies this
      ensures (View(), granted) == Take(old(View()), now, n)
    {
      Refill(now);
      granted := tokens >= n as real;
      if granted {
        tokens := tokens - n as real;
      }
    }
  }

  // ----- any run of calls

  datatype Call = Call(now: real, tokens: int)

  /** The bucket after a run, and the tokens it granted. */
  function Run(b: Bucket, calls: seq<Call>): (Bucket, int) {
    if calls == [] then (b, 0)
    else
      var (before, granted) := Run(b, calls[..|calls| - 1]);
      var call := calls[|calls| - 1];
      var (after, ok) := Take(before, call.now, call.tokens);
      (after, if ok then granted + call.tokens else granted)
  }

  ghost predicate ForwardFrom(calls: seq<Call>, start: real) {
    && (forall i :: 0 <= i < |calls| ==> start <= calls[i].now)
    && forall i, j :: 0 <= i < j < |calls| ==> calls[i].now <= calls[j].now
  }

  /** Taking keeps the bucket within its bounds exactly when what is asked for is not
      negative, or not so negative as to overfill it: a negative request adds tokens. */
  lemma TakeKeepsBoundsExactly(b: Bucket, now: real, n: int)
    requires b.Constructible() && b.InBounds()
    ensures Take(b, now, n).0.InBounds() <==> 0 <= n || Refilled(b, now).tokens - n as real <= b.capacity as real
  {
    RefillBounds(b, now);
  }

  /** A request for -1 overfills a full bucket. */
  lemma NegativeRequestOverfills()
    ensures var b := NewBucket(1, 1.0);
      b.Constructible() && b.InBounds() && Take(b, 0.0, -1).1 && Take(b, 0.0, -1).0.tokens == 2.0 && !Take(b, 0.0, -1).0.InBounds()
  {
  }

  lemma EarnedForward(rate: real, from: real, to: real)
    requires 0.0 < rate && from <= to
    ensures 0.0 <= Earned(rate, from, to) && Earned(rate, from, from) == 0.0
  {
    NonNegative(to - from, rate);
    assert (from - from) * rate == 0.0;
  }

  lemma EarnedAdds(rate: real, a: real, b: real, c: real)
    ensures Earned(rate, a, b) + Earned(rate, b, c) == Earned(rate, a, c)
  {
    assert (b - a) * rate == b * rate - a * rate && (c - b) * rate == c * rate - b * rate && (c - a) * rate == c * rate - a * rate;
  }

  lemma RefillBounds(b: Bucket, now: real)
    requires b.Constructible() && 0.0 <= b.tokens
    ensures 0.0 <= Refilled(b, now).tokens && Refilled(b, now).Constructible() && Refilled(b, now).last == Some(now)
    ensures b.InBounds() ==> Refilled(b, now).InBounds()
    ensures b.last.Some? && b.last.value <= now ==>
              Refilled(b, now).tokens <= b.tokens + Earned(b.refillPerSecond, b.last.value, now)
  {
    if b.last.Some? && b.last.value <= now { EarnedForward(b.refillPerSecond, b.last.value, now); }
    hide Earned;
  }

  /** From a moment the bucket was last touched, the tokens granted plus those left are at
      most those it had plus the refill over the time passed; tokens a negative request
      gives back count against those granted. */
  lemma {:induction false} RunBound(b: Bucket, calls: seq<Call>)
    requires b.Constructible() && 0.0 <= b.tokens && b.last.Some? && ForwardFrom(calls, b.last.value)
    ensures var (after, granted) := Run(b, calls);
      && after.Constructible() && 0.0 <= after.tokens && after.last.Some?
      && after.refillPerSecond == b.refillPerSecond && after.capacity == b.capacity
      && after.last.value == (if calls == [] then b.last.value else calls[|calls| - 1].now)
      && granted as real + after.tokens <= b.tokens + Earned(b.refillPerSecond, b.last.value, after.last.value)
  {
    hide Earned;
    if calls == [] {
      EarnedForward(b.refillPerSecond, b.last.value, b.last.value);
    } else {
      var front, call := calls[..|calls| - 1], calls[|calls| - 1];
      RunBound(b, front);
      var (before, granted) := Run(b, front);
      hide Refilled;
      RefillBounds(before, call.now);
      RefillKeeps(before, call.now);
      EarnedAdds(b.refillPerSecond, b.last.value, before.last.value, call.now);
    }
  }

  /** Requests that are not negative keep the bucket within its bounds throughout. */
  lemma {:induction false} RunKeepsBounds(b: Bucket, calls: seq<Call>)
    requires b.Constructible() && b.InBounds() && forall i :: 0 <= i < |calls| ==> 0 <= calls[i].tokens
    ensures Run(b, calls).0.InBounds() && Run(b, calls).0.Constructible() && 0 <= Run(b, calls).1
  {
    if calls != [] {
      var front, call := calls[..|calls| - 1], calls[|calls| - 1];
      RunKeepsBounds(b, front);
      var before := Run(b, front).0;
      hide Refilled;
      RefillBounds(before, call.now);
      RefillKeeps(before, call.now);
    }
  }

  lemma RefillKeeps(b: Bucket, now: real)
    ensures Refilled(b, now).capacity == b.capacity && Refilled(b, now).refillPerSecond == b.refillPerSecond
  {
  }

  lemma {:induction false} RunSplit(b: Bucket, first: Call, rest: seq<Call>)
    ensures var (after, ok) := Take(b, first.now, first.tokens);
      Run(b, [first] + rest) == (Run(after, rest).0, Run(after, rest).1 + (if ok then first.tokens else 0))
  {
    var all := [first] + rest;
    hide Take;
    if rest == [] {
      assert all[..0] == [];
      assert Run(b, []) == (b, 0);
    } else {
      RunSplit(b, first, rest[..|rest| - 1]);
      assert all[..|all| - 1] == [first] + rest[..|rest| - 1];
    }
  }

  lemma RestForward(calls: seq<Call>)
    requires calls != [] && ForwardFrom(calls, calls[0].now)
    ensures ForwardFrom(calls[1..], calls[0].now) && calls == [calls[0]] + calls[1..]
    ensures calls[|calls| - 1].now == if calls[1..] == [] then calls[0].now else calls[1..][|calls[1..]| - 1].now
  {
  }

  /** Refilling in between makes no difference. */
  lemma RefillsCompose(b: Bucket, t1: real, t2: real)
    requires b.Constructible() && b.InBounds() && b.last.Some? && b.last.value <= t1 <= t2
    ensures Refilled(Refilled(b, t1), t2) == Refilled(b, t2)
    ensures Refilled(b, t2).tokens == Min(b.capacity as real, b.tokens + Earned(b.refillPerSecond, b.last.value, t2))
  {
    EarnedForward(b.refillPerSecond, b.last.value, t1);
    EarnedForward(b.refillPerSecond, t1, t2);
    EarnedForward(b.refillPerSecond, b.last.value, t2);
    EarnedAdds(b.refillPerSecond, b.last.value, t1, t2);
    hide Earned;
  }

  /** The level of the bucket, exactly: as long as nothing is granted it is what it was plus
      the refill over the time passed, up to the capacity, however often it is asked. */
  lemma {:induction false} LevelExactly(b: Bucket, calls: seq<Call>)
    requires b.Constructible() && b.InBounds() && b.last.Some? && ForwardFrom(calls, b.last.value)
    requires (forall i :: 0 <= i < |calls| ==> 0 <= calls[i].tokens) && Run(b, calls).1 == 0
    ensures calls != [] ==>
              Run(b, calls).0 == Refilled(b, calls[|calls| - 1].now)
              && Run(b, calls).0.tokens == Min(b.capacity as real, b.tokens + Earned(b.refillPerSecond, b.last.value, calls[|calls| - 1].now))
  {
    if calls != [] {
      var front, call := calls[..|calls| - 1], calls[|calls| - 1];
      RunKeepsBounds(b, front);
      hide Earned, Refilled;
      LevelExactly(b, front);
      if front == [] {
        RefillsCompose(b, call.now, call.now);
      } else {
        RefillsCompose(b, front[|front| - 1].now, call.now);
      }
    }
  }

  /** And a request is granted exactly if the level reaches it, and then leaves the rest. */
  lemma GrantedExactly(b: Bucket, now: real, n: int)
    ensures var level := Refilled(b, now).tokens;
      && (Take(b, now, n).1 <==> n as real <= level)
      && Take(b, now, n).0.tokens == (if n as real <= level then level - n as real else level)
  {
    hide Earned;
  }

  lemma FirstTake(b: Bucket, first: Call)
    requires b.Constructible() && 0.0 <= b.tokens
    ensures var (after, ok) := Take(b, first.now, first.tokens);
      && after.Constructible() && 0.0 <= after.tokens && after.last == Some(first.now)
      && after.refillPerSecond == b.refillPerSecond
      && (if ok then first.tokens else 0) as real + after.tokens == Refilled(b, first.now).tokens
      && (b.InBounds() ==> Refilled(b, first.now).tokens <= b.capacity as real)
  {
    RefillBounds(b, first.now);
    RefillKeeps(b, first.now);
    hide Refilled;
  }

  /** Rate bound over any window of any run, whatever is requested: under a clock that does
      not go back the tokens granted in it are at most those in the bucket at its start
      plus the refill over its length; at most the capacity plus that refill if the bucket
      is not overfull. */
  lemma WindowIsBounded(b: Bucket, calls: seq<Call>)
    requires b.Constructible() && 0.0 <= b.tokens && calls != [] && ForwardFrom(calls, calls[0].now)
    ensures var refill := Earned(b.refillPerSecond, calls[0].now, calls[|calls| - 1].now);
      && Run(b, calls).1 as real <= Refilled(b, calls[0].now).tokens + refill
      && (b.InBounds() ==> Run(b, calls).1 as real <= b.capacity as real + refill)
  {
    var first, rest := calls[0], calls[1..];
    var after := Take(b, first.now, first.tokens).0;
    FirstTake(b, first);
    hide Earned, Take, Refilled;
    RunSplit(b, first, rest);
    hide Run;
    RestForward(calls);
    hide ForwardFrom;
    RunBound(after, rest);
  }

  /** The clock must not go back: stepping it back lets the same second refill twice. */
  lemma BackwardClockOvergrants()
    ensures var b := NewBucket(1, 1.0);
      var calls := [Call(1.0, 1), Call(0.0, 1), Call(1.0, 1)];
      Run(b, calls).1 as real > 1.0 + Earned(1.0, 1.0, 1.0)
  {
    var b := NewBucket(1, 1.0);
    var calls := [Call(1.0, 1), Call(0.0, 1), Call(1.0, 1)];
    assert calls[..2][..1][..0] == [] && calls[..2][..1] == [Call(1.0, 1)] && calls[..2] == [Call(1.0, 1), Call(0.0, 1)];
    assert Run(b, []) == (b, 0);
    assert Run(b, [Call(1.0, 1)]) == (Bucket(1, 1.0, 0.0, Some(1.0)), 1) by { assert [Call(1.0, 1)][..0] == []; }
    assert Run(b, calls[..2]) == (Bucket(1, 1.0, 0.0, Some(0.0)), 1);
  }
}
