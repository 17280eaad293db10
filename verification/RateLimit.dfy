/** The token-bucket limiter: one bucket per (principal, route) key plus one
    bucket shared by every anonymous request.  Floating-point seconds and tokens
    are reals, and every clock reading is an argument. */
module RateLimit {
  const REQUESTS_PER_SECOND: real := 100.0
  const BURST_TOKENS: real := 200.0
  const ANON_GLOBAL_RPS: real := 10.0
  const MAX_RETRY_AFTER: nat := 60

  // ------------------------------------------------------------------
  // One bucket, as a value
  // ------------------------------------------------------------------

  datatype BucketState = BucketState(tokens: real, lastRefill: real, capacity: real, rate: real)

  datatype Reply = Reply(allowed: bool, retryAfter: nat)

  function Min(a: real, b: real): real {
    if a <= b then a else b
  }

  // The duration between two instants saturates at zero.
  function Elapsed(earlier: real, now: real): real {
    if earlier <= now then now - earlier else 0.0
  }

  function Full(capacity: real, rate: real, now: real): BucketState {
    BucketState(capacity, now, capacity, rate)
  }

  function Refill(b: BucketState, now: real): BucketState {
    b.(tokens := Min(b.tokens + Elapsed(b.lastRefill, now) * b.rate, b.capacity), lastRefill := now)
  }

  predicate Admits(b: BucketState, now: real) {
    Refill(b, now).tokens >= 1.0
  }

  function Consume(b: BucketState, now: real): BucketState {
    var r := Refill(b, now);
    if r.tokens >= 1.0 then r.(tokens := r.tokens - 1.0) else r
  }

  function Ceil(x: real): int {
    -((-x).Floor)
  }

  // A zero rate divides to infinity (or to a NaN, which the floor of one second
  // replaces); the conversion to an integer saturates before the cap of 60.
  function RetryAfter(b: BucketState): nat {
    var needed := 1.0 - b.tokens;
    if b.rate == 0.0 then
      if needed > 0.0 then MAX_RETRY_AFTER else 1
    else
      var secs := Ceil(needed / b.rate);
      if secs < 1 then 1 else if secs > MAX_RETRY_AFTER then MAX_RETRY_AFTER else secs
  }

  function Answer(b: BucketState, now: real): Reply {
    if Admits(b, now) then Reply(true, 0) else Reply(false, RetryAfter(Consume(b, now)))
  }

  // ------------------------------------------------------------------
  // The classes
  // ------------------------------------------------------------------

  class Bucket {
    var tokens: real
    var lastRefill: real
    const capacity: real
    const rate: real

    ghost function State(): BucketState
      reads this
    {
      BucketState(tokens, lastRefill, capacity, rate)
    }

    constructor (capacity: real, rate: real, now: real)
      ensures State() == Full(capacity, rate, now)
    {
      this.tokens := capacity;
      this.lastRefill := now;
      this.capacity := capacity;
      this.rate := rate;
    }

    method TryConsume(now: real) returns (ok: bool)
      modifies this
      ensures State() == Consume(old(State()), now)
      ensures ok == Admits(old(State()), now)
    {
      ghost var before := State();
      var elapsed := Elapsed(lastRefill, now);
      tokens := Min(tokens + elapsed * rate, capacity);
      lastRefill := now;
      assert State() == Refill(before, now);
      if tokens >= 1.0 {
        tokens := tokens - 1.0;
        return true;
      }
      return false;
    }

    method AdviseRetry() returns (secs: nat)
      ensures secs == RetryAfter(State())
      ensures 1 <= secs <= MAX_RETRY_AFTER
    {
      var needed := 1.0 - tokens;
      if rate == 0.0 {
        secs := if needed > 0.0 then MAX_RETRY_AFTER else 1;
        return;
      }
      var whole := Ceil(needed / rate);
      if whole < 1 { whole := 1; }
      secs := if whole > MAX_RETRY_AFTER then MAX_RETRY_AFTER else whole;
    }

    // What both checks do with their bucket.
    method Ask(now: real) returns (allowed: bool, retryAfter: nat)
      modifies this
      ensures State() == Consume(old(State()), now)
      ensures Reply(allowed, retryAfter) == Answer(old(State()), now)
    {
      allowed := TryConsume(now);
      if allowed {
        retryAfter := 0;
      } else {
        retryAfter := AdviseRetry();
      }
    }
  }

  // What one call does to the table of bucket values: a bucket is created full on
  // a key's first call, and every other key keeps its bucket.
  function BucketFor(m: map<string, BucketState>, capacity: real, rate: real, call: Call): BucketState {
    if call.key in m then m[call.key] else Full(capacity, rate, call.created)
  }

  function AfterCall(m: map<string, BucketState>, capacity: real, rate: real, call: Call): map<string, BucketState> {
    m[call.key := Consume(BucketFor(m, capacity, rate, call), call.now)]
  }

  // A call reads the clock once if it creates the bucket, and once to consume.
  datatype Call = Call(key: string, created: real, now: real)

  class RateLimiter {
    var buckets: map<string, Bucket>
    const anonGlobal: Bucket
    const capacity: real
    const rate: real

    ghost predicate Valid()
      reads this, buckets.Values, anonGlobal
    {
      && anonGlobal !in buckets.Values
      && anonGlobal.capacity == ANON_GLOBAL_RPS && anonGlobal.rate == ANON_GLOBAL_RPS
      && (forall k :: k in buckets ==> buckets[k].capacity == capacity && buckets[k].rate == rate)
      && (forall k1, k2 :: k1 in buckets && k2 in buckets && k1 != k2 ==> buckets[k1] != buckets[k2])
    }

    ghost function View(): map<string, BucketState>
      reads this, buckets.Values
    {
      map k | k in buckets :: buckets[k].State()
    }

    constructor (capacity: real, rate: real, now: real)
      ensures Valid() && fresh(anonGlobal)
      ensures this.capacity == capacity && this.rate == rate && View() == map[]
      ensures anonGlobal.State() == Full(ANON_GLOBAL_RPS, ANON_GLOBAL_RPS, now)
    {
      this.buckets := map[];
      this.capacity := capacity;
      this.rate := rate;
      this.anonGlobal := new Bucket(ANON_GLOBAL_RPS, ANON_GLOBAL_RPS, now);
    }

    constructor Default(now: real)
      ensures Valid() && fresh(anonGlobal)
      ensures capacity == BURST_TOKENS && rate == REQUESTS_PER_SECOND && View() == map[]
      ensures anonGlobal.State() == Full(ANON_GLOBAL_RPS, ANON_GLOBAL_RPS, now)
    {
      buckets := map[];
      capacity := BURST_TOKENS;
      rate := REQUESTS_PER_SECOND;
      anonGlobal := new Bucket(ANON_GLOBAL_RPS, ANON_GLOBAL_RPS, now);
    }

    // The entry for a key, inserted full if the key is new.
    method Entry(call: Call) returns (entry: Bucket)
      requires Valid()
      modifies this`buckets
      ensures Valid() && fresh(buckets.Values - old(buckets.Values))
      ensures buckets == old(buckets)[call.key := entry]
      ensures View() == old(View())[call.key := BucketFor(old(View()), capacity, rate, call)]
      ensures forall k :: k in old(buckets) ==> old(buckets)[k] == buckets[k]
      ensures unchanged(old(buckets.Values)) && unchanged(anonGlobal)
    {
      if call.key !in buckets {
        entry := new Bucket(capacity, rate, call.created);
        buckets := buckets[call.key := entry];
      } else {
        entry := buckets[call.key];
        assert buckets[call.key := entry] == buckets;
      }
    }

    // The check of a key that has an entry.
    method AskEntry(key: string, now: real) returns (allowed: bool, retryAfter: nat)
      requires Valid() && key in buckets
      modifies buckets[key]
      ensures Valid() && View() == old(View())[key := Consume(old(View()[key]), now)]
      ensures Reply(allowed, retryAfter) == Answer(old(View()[key]), now)
      ensures anonGlobal.State() == old(anonGlobal.State())
    {
      assert forall k :: k in buckets && k != key ==> buckets[k] != buckets[key];
      allowed, retryAfter := buckets[key].Ask(now);
    }

    method Check(call: Call) returns (allowed: bool, retryAfter: nat)
      requires Valid()
      modifies this`buckets, buckets.Values
      ensures Valid() && fresh(buckets.Values - old(buckets.Values))
      ensures View() == AfterCall(old(View()), capacity, rate, call)
      ensures Reply(allowed, retryAfter) == Answer(BucketFor(old(View()), capacity, rate, call), call.now)
      ensures anonGlobal.State() == old(anonGlobal.State())
    {
      var entry := Entry(call);
      allowed, retryAfter := AskEntry(call.key, call.now);
    }

    method CheckAnonGlobal(now: real) returns (allowed: bool, retryAfter: nat)
      requires Valid()
      modifies anonGlobal
      ensures Valid() && View() == old(View())
      ensures anonGlobal.State() == Consume(old(anonGlobal.State()), now)
      ensures Reply(allowed, retryAfter) == Answer(old(anonGlobal.State()), now)
    {
      allowed, retryAfter := anonGlobal.Ask(now);
    }
  }

  // ------------------------------------------------------------------
  // Runs of one bucket
  // ------------------------------------------------------------------

  ghost predicate Sane(b: BucketState) {
    0.0 <= b.tokens <= b.capacity && 0.0 <= b.rate
  }

  ghost predicate Sorted(times: seq<real>) {
    forall i, j :: 0 <= i < j < |times| ==> times[i] <= times[j]
  }

  // No call is earlier than the bucket's last refill, and the clock never goes back.
  ghost predicate Follows(times: seq<real>, last: real) {
    Sorted(times) && forall i :: 0 <= i < |times| ==> last <= times[i]
  }

  function Replies(b: BucketState, times: seq<real>): (r: seq<Reply>)
    ensures |r| == |times|
    decreases times
  {
    if times == [] then [] else [Answer(b, times[0])] + Replies(Consume(b, times[0]), times[1..])
  }

  function FinalBucket(b: BucketState, times: seq<real>): BucketState
    decreases times
  {
    if times == [] then b else FinalBucket(Consume(b, times[0]), times[1..])
  }

  lemma Distribute(x: real, y: real, rate: real)
    ensures (x + y) * rate == x * rate + y * rate
  {
  }

  lemma EarnsMore(x: real, y: real, rate: real)
    requires 0.0 <= rate && x <= y
    ensures x * rate <= y * rate
  {
  }

  lemma EarnsSome(x: real, rate: real)
    requires 0.0 <= rate && 0.0 <= x
    ensures 0.0 <= x * rate
  {
  }

  lemma ConsumeKeepsBounds(b: BucketState, now: real)
    requires Sane(b)
    ensures Sane(Consume(b, now)) && Consume(b, now).capacity == b.capacity && Consume(b, now).rate == b.rate
  {
    assert Elapsed(b.lastRefill, now) * b.rate >= 0.0;
  }

  /** In every run, from any bucket within bounds, tokens stay in [0, capacity]. */
  lemma {:induction false} TokensStayInBounds(b: BucketState, times: seq<real>)
    requires Sane(b)
    ensures 0.0 <= FinalBucket(b, times).tokens <= b.capacity
    ensures Sane(FinalBucket(b, times))
    decreases times
  {
    if times != [] {
      ConsumeKeepsBounds(b, times[0]);
      TokensStayInBounds(Consume(b, times[0]), times[1..]);
    }
  }

  /** Refilling at t1 and then at t2 is refilling once at t2. */
  lemma RefillComposes(b: BucketState, t1: real, t2: real)
    requires 0.0 <= b.rate && b.lastRefill <= t1 <= t2
    ensures Refill(Refill(b, t1), t2) == Refill(b, t2)
  {
    var d1, d2 := t1 - b.lastRefill, t2 - t1;
    assert (d1 + d2) * b.rate == d1 * b.rate + d2 * b.rate;
    assert d1 * b.rate >= 0.0 && d2 * b.rate >= 0.0;
  }

  // A bucket that was merely looked at answers all later calls as before.
  lemma RefillIsInvisible(b: BucketState, t: real, times: seq<real>)
    requires 0.0 <= b.rate && b.lastRefill <= t && Follows(times, t)
    ensures Replies(Refill(b, t), times) == Replies(b, times)
  {
    if times != [] {
      RefillComposes(b, t, times[0]);
    }
  }

  function Keep<T>(s: seq<T>, mask: seq<bool>): (r: seq<T>)
    requires |s| == |mask|
  {
    if s == [] then []
    else (if mask[0] then [s[0]] else []) + Keep(s[1..], mask[1..])
  }

  lemma {:induction false} KeepIsFrom<T>(s: seq<T>, mask: seq<bool>, x: T)
    requires |s| == |mask| && x in Keep(s, mask)
    ensures x in s
  {
    if s != [] && (!mask[0] || x != s[0]) {
      KeepIsFrom(s[1..], mask[1..], x);
    }
  }

  lemma {:induction false} KeepSorted(times: seq<real>, mask: seq<bool>, last: real)
    requires |times| == |mask| && Follows(times, last)
    ensures Follows(Keep(times, mask), last)
  {
    if times != [] {
      KeepSorted(times[1..], mask[1..], times[0]);
    }
  }

  /** Deleting any set of refused calls changes no other answer, retry advice
      included. */
  lemma {:induction false} RefusedCallsDoNotMatter(b: BucketState, times: seq<real>, mask: seq<bool>)
    requires 0.0 <= b.rate && Follows(times, b.lastRefill) && |mask| == |times|
    requires forall i :: 0 <= i < |times| && !mask[i] ==> !Replies(b, times)[i].allowed
    ensures Replies(b, Keep(times, mask)) == Keep(Replies(b, times), mask)
    decreases times
  {
    if times != [] {
      var t, rest, restMask := times[0], times[1..], mask[1..];
      var b' := Consume(b, t);
      forall i | 0 <= i < |rest| && !restMask[i]
        ensures !Replies(b', rest)[i].allowed
      {
        assert Replies(b, times)[i + 1] == Replies(b', rest)[i];
      }
      RefusedCallsDoNotMatter(b', rest, restMask);
      KeepSorted(rest, restMask, t);
      assert Replies(b, times)[1..] == Replies(b', rest);
      if mask[0] {
        assert Keep(times, mask) == [t] + Keep(rest, restMask);
        assert Keep(times, mask)[1..] == Keep(rest, restMask);
      } else {
        assert !Replies(b, times)[0].allowed;
        assert b' == Refill(b, t);
        RefillIsInvisible(b, t, Keep(rest, restMask));
        assert Keep(times, mask) == Keep(rest, restMask);
      }
    }
  }

  // ------------------------------------------------------------------
  // Window bound
  // ------------------------------------------------------------------

  // What a bucket may admit in d seconds.
  function Allowance(capacity: real, rate: real, d: real): real {
    capacity + d * rate
  }

  function AdmittedWithin(b: BucketState, times: seq<real>, lo: real, hi: real): nat
    decreases times
  {
    if times == [] then 0
    else
      (if lo <= times[0] <= hi && Admits(b, times[0]) then 1 else 0)
      + AdmittedWithin(Consume(b, times[0]), times[1..], lo, hi)
  }

  lemma {:induction false} NothingAfterTheWindow(b: BucketState, times: seq<real>, lo: real, hi: real)
    requires Sorted(times) && (times != [] ==> hi < times[0])
    ensures AdmittedWithin(b, times, lo, hi) == 0
    decreases times
  {
    if times != [] {
      NothingAfterTheWindow(Consume(b, times[0]), times[1..], lo, hi);
    }
  }

  // The tokens in hand plus what would refill until hi if nothing were capped.
  function Worth(b: BucketState, hi: real): real {
    b.tokens + (hi - b.lastRefill) * b.rate
  }

  lemma WorthIsNotNegative(b: BucketState, hi: real)
    requires Sane(b) && b.lastRefill <= hi
    ensures 0.0 <= Worth(b, hi)
  {
    var elapsed := hi - b.lastRefill;
    EarnsSome(elapsed, b.rate);
    assert Worth(b, hi) == b.tokens + elapsed * b.rate;
  }

  lemma WorthOfFullBucket(b: BucketState, lo: real, d: real)
    requires Sane(b) && lo <= b.lastRefill
    ensures Worth(b, lo + d) <= Allowance(b.capacity, b.rate, d)
  {
    EarnsMore(lo + d - b.lastRefill, d, b.rate);
  }

  lemma CallSpendsWorth(b: BucketState, t: real, hi: real)
    requires Sane(b) && b.lastRefill <= t <= hi
    ensures Worth(Consume(b, t), hi) + (if Admits(b, t) then 1.0 else 0.0) <= Worth(b, hi)
  {
    Distribute(t - b.lastRefill, hi - t, b.rate);
    assert (t - b.lastRefill) + (hi - t) == hi - b.lastRefill;
  }

  lemma {:induction false} AdmissionsArePaidFor(b: BucketState, times: seq<real>, lo: real, hi: real)
    requires Sane(b) && Follows(times, b.lastRefill) && b.lastRefill <= hi
    ensures AdmittedWithin(b, times, lo, hi) as real <= Worth(b, hi)
    decreases times
  {
    if times == [] || hi < times[0] {
      NothingAfterTheWindow(b, times, lo, hi);
      WorthIsNotNegative(b, hi);
    } else {
      var b' := Consume(b, times[0]);
      ConsumeKeepsBounds(b, times[0]);
      AdmissionsArePaidFor(b', times[1..], lo, hi);
      CallSpendsWorth(b, times[0], hi);
    }
  }

  // Looking at the bucket when the first call of the window arrives changes
  // nothing, and it then holds at most a full bucket.
  lemma FirstCallOfTheWindow(b: BucketState, times: seq<real>, lo: real, hi: real)
    requires Sane(b) && Follows(times, b.lastRefill) && times != [] && times[0] <= hi
    ensures var r := Refill(b, times[0]);
      && Sane(r) && Follows(times, r.lastRefill) && r.capacity == b.capacity && r.rate == b.rate
      && AdmittedWithin(r, times, lo, hi) == AdmittedWithin(b, times, lo, hi)
  {
    var t := times[0];
    EarnsSome(t - b.lastRefill, b.rate);
    RefillComposes(b, t, t);
  }

  /** Whatever the calls, one bucket admits at most capacity + rate * d of them
      inside a window of length d. */
  lemma {:induction false} WindowBound(b: BucketState, times: seq<real>, lo: real, d: real)
    requires Sane(b) && Follows(times, b.lastRefill) && 0.0 <= d
    ensures AdmittedWithin(b, times, lo, lo + d) as real <= Allowance(b.capacity, b.rate, d)
    decreases times
  {
    if times == [] || lo + d < times[0] {
      NothingAfterTheWindow(b, times, lo, lo + d);
      EarnsSome(d, b.rate);
    } else if times[0] < lo {
      ConsumeKeepsBounds(b, times[0]);
      WindowBound(Consume(b, times[0]), times[1..], lo, d);
    } else {
      WindowFromFirstCall(b, times, lo, d);
    }
  }

  lemma WindowFromFirstCall(b: BucketState, times: seq<real>, lo: real, d: real)
    requires Sane(b) && Follows(times, b.lastRefill) && 0.0 <= d
    requires times != [] && lo <= times[0] <= lo + d
    ensures AdmittedWithin(b, times, lo, lo + d) as real <= Allowance(b.capacity, b.rate, d)
  {
    FirstCallOfTheWindow(b, times, lo, lo + d);
    AdmissionsArePaidFor(Refill(b, times[0]), times, lo, lo + d);
    WorthOfFullBucket(Refill(b, times[0]), lo, d);
  }

  /** The bucket all anonymous requests share admits at most 10 + 10 d of them in
      any d seconds, however many addresses they come from. */
  lemma AnonymousWindow(created: real, times: seq<real>, lo: real, d: real)
    requires Follows(times, created) && 0.0 <= d
    ensures AdmittedWithin(Full(ANON_GLOBAL_RPS, ANON_GLOBAL_RPS, created), times, lo, lo + d) as real <= 10.0 + d * 10.0
  {
    WindowBound(Full(ANON_GLOBAL_RPS, ANON_GLOBAL_RPS, created), times, lo, d);
  }

  /** A key of a limiter with the default settings gets at most 200 + 100 d calls
      through in any d seconds. */
  lemma DefaultWindow(created: real, times: seq<real>, lo: real, d: real)
    requires Follows(times, created) && 0.0 <= d
    ensures AdmittedWithin(Full(BURST_TOKENS, REQUESTS_PER_SECOND, created), times, lo, lo + d) as real <= 200.0 + d * 100.0
  {
    WindowBound(Full(BURST_TOKENS, REQUESTS_PER_SECOND, created), times, lo, d);
  }

  // ------------------------------------------------------------------
  // Which calls are refused
  // ------------------------------------------------------------------

  // How many of calls j to i - 1 were admitted.
  function Admissions(replies: seq<Reply>, j: nat, i: nat): nat
    requires i <= |replies|
  {
    if i <= j then 0 else Admissions(replies, j, i - 1) + if replies[i - 1].allowed then 1 else 0
  }

  // The buckets that the calls find, and the replies they get.
  ghost predicate IsTrace(states: seq<BucketState>, replies: seq<Reply>, times: seq<real>, capacity: real, rate: real) {
    && |states| == |replies| == |times|
    && (forall i :: 0 <= i < |times| ==> states[i].capacity == capacity && states[i].rate == rate)
    && (forall i :: 0 <= i < |times| ==> replies[i] == Answer(states[i], times[i]))
    && (forall i :: 0 < i < |times| ==> states[i] == Consume(states[i - 1], times[i - 1]))
  }

  lemma {:induction false} Traced(b: BucketState, times: seq<real>) returns (states: seq<BucketState>)
    ensures IsTrace(states, Replies(b, times), times, b.capacity, b.rate)
    ensures times != [] ==> states[0] == b
    decreases times
  {
    if times == [] {
      states := [];
    } else {
      var rest := Traced(Consume(b, times[0]), times[1..]);
      states := [b] + rest;
    }
  }

  // What call i finds.
  function LevelAt(states: seq<BucketState>, times: seq<real>, i: nat): real
    requires i < |times| == |states|
  {
    Refill(states[i], times[i]).tokens
  }

  // What refills between two calls.
  function Gain(times: seq<real>, rate: real, j: nat, i: nat): real
    requires j < |times| && i < |times|
  {
    (times[i] - times[j]) * rate
  }

  // What call i would find if the bucket had been full at call j and never since.
  function LevelSince(replies: seq<Reply>, times: seq<real>, capacity: real, rate: real, j: nat, i: nat): real
    requires j <= i < |times| == |replies|
  {
    capacity + Gain(times, rate, j, i) - Admissions(replies, j, i) as real
  }

  function Cost(reply: Reply): real {
    if reply.allowed then 1.0 else 0.0
  }

  lemma SameProduct(x: real, y: real, rate: real)
    requires x == y
    ensures x * rate == y * rate
  {
  }

  lemma RefillAtRate(b: BucketState, from: real, now: real, rate: real)
    requires b.lastRefill == from <= now && b.rate == rate
    ensures Refill(b, now).tokens == Min(b.tokens + (now - from) * rate, b.capacity)
  {
  }

  lemma CallCosts(b: BucketState, t: real)
    ensures Consume(b, t).tokens == Refill(b, t).tokens - Cost(Answer(b, t))
    ensures Consume(b, t).lastRefill == t
  {
  }

  lemma NextFound(b: BucketState, t: real, next: real, capacity: real, rate: real)
    requires t <= next && b.capacity == capacity && b.rate == rate
    ensures Refill(Consume(b, t), next).tokens
         == Min(Refill(b, t).tokens - Cost(Answer(b, t)) + (next - t) * rate, capacity)
  {
    CallCosts(b, t);
    RefillAtRate(Consume(b, t), t, next, rate);
  }

  lemma NextLevel(states: seq<BucketState>, replies: seq<Reply>, times: seq<real>, capacity: real, rate: real, i: nat)
    requires IsTrace(states, replies, times, capacity, rate) && i + 1 < |times| && times[i] <= times[i + 1]
    ensures LevelAt(states, times, i + 1)
         == Min(LevelAt(states, times, i) - Cost(replies[i]) + Gain(times, rate, i, i + 1), capacity)
  {
    assert states[i + 1] == Consume(states[i + 1 - 1], times[i + 1 - 1]);
    NextFound(states[i], times[i], times[i + 1], capacity, rate);
  }

  lemma GainsAdd(times: seq<real>, rate: real, j: nat, i: nat, k: nat)
    requires j < |times| && i < |times| && k < |times|
    ensures Gain(times, rate, j, k) == Gain(times, rate, j, i) + Gain(times, rate, i, k)
  {
    Distribute(times[i] - times[j], times[k] - times[i], rate);
    SameProduct((times[i] - times[j]) + (times[k] - times[i]), times[k] - times[j], rate);
  }

  // A level that takes steps and is cut off at a cap is the least of the sums of the
  // steps since some time, starting from the cap.
  lemma {:induction false} LeastSum(level: nat -> real, step: nat -> real, since: (nat, nat) -> real, cap: real, i: nat)
    returns (least: nat)
    requires level(0) == cap && forall k: nat :: k <= i ==> since(k, k) == cap
    requires forall k: nat :: k < i ==> level(k + 1) == Min(level(k) + step(k), cap)
    requires forall j: nat, k: nat :: j <= k < i ==> since(j, k + 1) == since(j, k) + step(k)
    ensures least <= i && level(i) == since(least, i)
    ensures forall j: nat :: j <= i ==> level(i) <= since(j, i)
  {
    if i == 0 {
      least := 0;
    } else {
      var k := i - 1;
      least := LeastSum(level, step, since, cap, k);
      assert level(k + 1) == Min(level(k) + step(k), cap);
      forall j: nat | j <= i ensures level(i) <= since(j, i) {
        if j < i {
          assert since(j, k + 1) == since(j, k) + step(k);
        }
      }
      assert since(least, k + 1) == since(least, k) + step(k);
      if level(i) == cap {
        least := i;
      }
    }
  }

  lemma SinceOneMore(replies: seq<Reply>, times: seq<real>, capacity: real, rate: real, j: nat, k: nat)
    requires j <= k && k + 1 < |times| == |replies|
    ensures LevelSince(replies, times, capacity, rate, j, k + 1)
         == LevelSince(replies, times, capacity, rate, j, k) + (Gain(times, rate, k, k + 1) - Cost(replies[k]))
  {
    GainsAdd(times, rate, j, k, k + 1);
  }

  lemma SinceItself(replies: seq<Reply>, times: seq<real>, capacity: real, rate: real, k: nat)
    requires k < |times| == |replies|
    ensures LevelSince(replies, times, capacity, rate, k, k) == capacity
  {
    SameProduct(times[k] - times[k], 0.0, rate);
  }

  // What a call finds is the least of these levels.
  lemma LevelIsLeast(states: seq<BucketState>, replies: seq<Reply>, times: seq<real>, capacity: real, rate: real, i: nat)
    returns (least: nat)
    requires IsTrace(states, replies, times, capacity, rate) && Sorted(times) && i < |times|
    requires LevelAt(states, times, 0) == capacity
    ensures least <= i && LevelAt(states, times, i) == LevelSince(replies, times, capacity, rate, least, i)
    ensures forall j: nat :: j <= i ==>
              LevelAt(states, times, i) <= LevelSince(replies, times, capacity, rate, j, i)
  {
    var n := |times|;
    var level := (k: nat) => if k < n then LevelAt(states, times, k) else 0.0;
    var step := (k: nat) => if k + 1 < n then Gain(times, rate, k, k + 1) - Cost(replies[k]) else 0.0;
    var since := (j: nat, k: nat) => if j <= k < n then LevelSince(replies, times, capacity, rate, j, k) else 0.0;
    forall k: nat | k <= i ensures since(k, k) == capacity {
      SinceItself(replies, times, capacity, rate, k);
    }
    forall k: nat | k < i ensures level(k + 1) == Min(level(k) + step(k), capacity) {
      NextLevel(states, replies, times, capacity, rate, k);
    }
    forall j: nat, k: nat | j <= k < i ensures since(j, k + 1) == since(j, k) + step(k) {
      SinceOneMore(replies, times, capacity, rate, j, k);
    }
    least := LeastSum(level, step, since, capacity, i);
    forall j: nat | j <= i
      ensures LevelAt(states, times, i) <= LevelSince(replies, times, capacity, rate, j, i)
    {
      assert level(i) <= since(j, i);
    }
  }

  lemma FirstLevel(b: BucketState, first: real)
    requires b.tokens == b.capacity && 0.0 <= b.rate && b.lastRefill <= first
    ensures Refill(b, first).tokens == b.capacity
  {
    EarnsSome(first - b.lastRefill, b.rate);
    RefillAtRate(b, b.lastRefill, first, b.rate);
  }

  // More calls were admitted since call j than leave a token of a full bucket and what
  // has refilled since.
  predicate IsSpent(b: BucketState, times: seq<real>, j: nat, i: nat)
    requires j <= i < |times|
  {
    Admissions(Replies(b, times), j, i) as real > Allowance(b.capacity, b.rate, times[i] - times[j]) - 1.0
  }

  lemma SpentMeansBelow(b: BucketState, times: seq<real>, j: nat, i: nat)
    requires j <= i < |times|
    ensures IsSpent(b, times, j, i) <==> LevelSince(Replies(b, times), times, b.capacity, b.rate, j, i) < 1.0
  {
  }

  lemma AllowedMeansToken(b: BucketState, t: real)
    ensures Answer(b, t).allowed <==> Refill(b, t).tokens >= 1.0
  {
  }

  /** The converse of the window bound: a bucket full at its creation refuses a call if
      and only if the calls admitted since some call, itself included, leave no token of
      a full bucket and what has refilled since then. */
  lemma RefusedExactly(b: BucketState, times: seq<real>, i: nat)
    requires b.tokens == b.capacity && 0.0 <= b.rate && Follows(times, b.lastRefill) && i < |times|
    ensures !Replies(b, times)[i].allowed <==> exists j: nat :: j <= i && IsSpent(b, times, j, i)
  {
    var states := Traced(b, times);
    FirstLevel(b, times[0]);
    var least := LevelIsLeast(states, Replies(b, times), times, b.capacity, b.rate, i);
    AllowedMeansToken(states[i], times[i]);
    LeastDecides(b, times, i, least, LevelAt(states, times, i));
  }

  lemma LeastDecides(b: BucketState, times: seq<real>, i: nat, least: nat, level: real)
    requires least <= i < |times| && level == LevelSince(Replies(b, times), times, b.capacity, b.rate, least, i)
    requires forall j: nat :: j <= i ==> level <= LevelSince(Replies(b, times), times, b.capacity, b.rate, j, i)
    ensures level < 1.0 <==> exists j: nat :: j <= i && IsSpent(b, times, j, i)
  {
    SpentMeansBelow(b, times, least, i);
    if exists j: nat :: j <= i && IsSpent(b, times, j, i) {
      var j: nat :| j <= i && IsSpent(b, times, j, i);
      SpentMeansBelow(b, times, j, i);
    }
  }

  lemma SpentAtOnce(b: BucketState, times: seq<real>, j: nat, i: nat)
    requires j <= i < |times| && times[i] == times[j]
    ensures IsSpent(b, times, j, i) <==> Admissions(Replies(b, times), j, i) as real > b.capacity - 1.0
  {
    SameProduct(times[i] - times[j], 0.0, b.rate);
  }

  lemma {:induction false} AdmissionsAreFew(replies: seq<Reply>, j: nat, i: nat)
    requires i <= |replies|
    ensures j <= i ==> Admissions(replies, j, i) <= i - j
  {
    if j < i {
      AdmissionsAreFew(replies, j, i - 1);
    }
  }

  lemma {:induction false} AllAdmitted(replies: seq<Reply>, n: nat, i: nat)
    requires n <= i <= |replies| && forall k :: 0 <= k < n ==> replies[k].allowed
    ensures Admissions(replies, 0, i) >= n
  {
    if n < i {
      AllAdmitted(replies, n, i - 1);
    } else if 0 < i {
      AllAdmitted(replies, n - 1, i - 1);
    }
  }

  /** Of calls made at one instant a full bucket admits the first as many as it holds
      whole tokens, and no more. */
  lemma {:induction false} BurstIsExactly(b: BucketState, times: seq<real>, i: nat)
    requires b.tokens == b.capacity && 0.0 <= b.rate && Follows(times, b.lastRefill) && i < |times|
    requires forall k :: 0 <= k < |times| ==> times[k] == times[0]
    ensures Replies(b, times)[i].allowed <==> (i + 1) as real <= b.capacity
  {
    var replies := Replies(b, times);
    forall k: nat | k < i ensures replies[k].allowed <==> (k + 1) as real <= b.capacity {
      BurstIsExactly(b, times, k);
    }
    RefusedExactly(b, times, i);
    if (i + 1) as real <= b.capacity {
      forall j: nat | j <= i ensures !IsSpent(b, times, j, i) {
        SpentAtOnce(b, times, j, i);
        AdmissionsAreFew(replies, j, i);
      }
    } else {
      var n := WholeTokens(b.capacity, i);
      AllAdmitted(replies, n, i);
      SpentAtOnce(b, times, 0, i);
      assert IsSpent(b, times, 0, i);
    }
  }

  lemma WholeTokens(capacity: real, i: nat) returns (n: nat)
    requires capacity < (i + 1) as real
    ensures n <= i && n as real > capacity - 1.0
    ensures n as real <= capacity || n == 0
  {
    n := if capacity < 1.0 then 0 else capacity.Floor;
  }

  /** Of calls made at one instant on a new key of a default limiter exactly the first
      200 are admitted, and of those on the anonymous bucket the first 10. */
  lemma DefaultBurst(created: real, times: seq<real>, i: nat)
    requires Follows(times, created) && i < |times| && forall k :: 0 <= k < |times| ==> times[k] == times[0]
    ensures Replies(Full(BURST_TOKENS, REQUESTS_PER_SECOND, created), times)[i].allowed <==> i < 200
    ensures Replies(Full(ANON_GLOBAL_RPS, ANON_GLOBAL_RPS, created), times)[i].allowed <==> i < 10
  {
    BurstIsExactly(Full(BURST_TOKENS, REQUESTS_PER_SECOND, created), times, i);
    BurstIsExactly(Full(ANON_GLOBAL_RPS, ANON_GLOBAL_RPS, created), times, i);
  }

  // ------------------------------------------------------------------
  // Retry advice
  // ------------------------------------------------------------------

  lemma CeilIsLeast(x: real, n: int)
    ensures Ceil(x) <= n <==> x <= n as real
  {
  }

  lemma DividedBounds(needed: real, rate: real, n: int)
    requires 0.0 < rate
    ensures needed / rate <= n as real <==> needed <= n as real * rate
  {
    var q, m := needed / rate, n as real;
    assert needed == q * rate;
    if q <= m {
      EarnsMore(q, m, rate);
    } else {
      Distribute(q - m, m, rate);
      assert (q - m) + m == q;
      assert (q - m) * rate > 0.0;
    }
  }

  // Waiting that long refills the bucket to a whole token.
  predicate RefillsToken(b: BucketState, seconds: real) {
    1.0 - b.tokens <= seconds * b.rate
  }

  lemma LongerRefillsMore(b: BucketState, x: real, y: real)
    requires 0.0 <= b.rate && x <= y && RefillsToken(b, x)
    ensures RefillsToken(b, y)
  {
    EarnsMore(x, y, b.rate);
  }

  // After a refusal the advice is the least whole number of seconds, from one up
  // to the cap, that refills a token.
  lemma AdviceIsLeast(b: BucketState, n: nat)
    requires b.tokens < 1.0 && 0.0 <= b.rate && 1 <= n < MAX_RETRY_AFTER
    ensures RetryAfter(b) <= n <==> RefillsToken(b, n as real)
  {
    if 0.0 < b.rate {
      CeilIsLeast((1.0 - b.tokens) / b.rate, n);
      DividedBounds(1.0 - b.tokens, b.rate, n);
    } else {
      SameProduct(b.rate, 0.0, n as real);
    }
  }

  /** Which advice is given: none with an admission, and with a refusal the least whole
      number of seconds, from 1 to 60, after which a token has refilled, or 60. */
  lemma AdviceIsExactly(b: BucketState, t: real, n: nat)
    requires 0.0 <= b.rate && 1 <= n < 60
    ensures Answer(b, t).allowed ==> Answer(b, t).retryAfter == 0
    ensures !Answer(b, t).allowed ==>
              && 1 <= Answer(b, t).retryAfter <= 60
              && (Answer(b, t).retryAfter <= n <==> 1.0 - Refill(b, t).tokens <= n as real * b.rate)
  {
    if !Admits(b, t) {
      AdviceIsLeast(Consume(b, t), n);
    }
  }

  lemma AdmitsAfterWaiting(b: BucketState, wait: real)
    requires 0.0 <= wait
    ensures Admits(b, b.lastRefill + wait) <==> 1.0 <= b.capacity && RefillsToken(b, wait)
  {
    assert Elapsed(b.lastRefill, b.lastRefill + wait) == wait;
  }

  /** After a refusal, the call made exactly when the advice says succeeds if and
      only if a bucket can hold a whole token and one refills within the cap of 60
      seconds. */
  lemma RetryAdviceExact(b: BucketState, t: real)
    requires 0.0 <= b.rate && !Admits(b, t)
    ensures Admits(Consume(b, t), t + Answer(b, t).retryAfter as real)
       <==> 1.0 <= b.capacity && RefillsToken(Consume(b, t), 60.0)
  {
    var refused := Consume(b, t);
    var w := RetryAfter(refused);
    AdmitsAfterWaiting(refused, w as real);
    if w < MAX_RETRY_AFTER && 0.0 < b.rate {
      AdviceIsLeast(refused, w);
      LongerRefillsMore(refused, w as real, 60.0);
    }
  }

  lemma SixtySecondsRefill(b: BucketState)
    requires 0.0 <= b.tokens && 1.0 <= 60.0 * b.rate
    ensures RefillsToken(b, 60.0)
  {
  }

  // Refused calls made from here on, none of them after `due`.
  ghost predicate RefusedUntil(b: BucketState, times: seq<real>, due: real) {
    && Follows(times, b.lastRefill)
    && forall i :: 0 <= i < |times| ==> times[i] <= due && !Replies(b, times)[i].allowed
  }

  /** With room for a token and at least one token a minute the advised call is
      admitted, whatever refused calls come in between. */
  lemma RetryAdviceSucceeds(b: BucketState, t: real, between: seq<real>, due: real)
    requires Sane(b) && 1.0 <= b.capacity && 1.0 <= 60.0 * b.rate && !Admits(b, t)
    requires due == t + Answer(b, t).retryAfter as real
    requires RefusedUntil(Consume(b, t), between, due)
    ensures Admits(FinalBucket(Consume(b, t), between), due)
  {
    ConsumeKeepsBounds(b, t);
    SixtySecondsRefill(Consume(b, t));
    RetryAdviceExact(b, t);
    RefusalsOnlyRefill(Consume(b, t), between, due);
  }

  /** Advice of more than one second is not padded: no call that comes a second or
      more before it is due is admitted. */
  lemma RetryAdviceIsNotPadded(b: BucketState, t: real, early: real)
    requires 0.0 <= b.rate && !Admits(b, t) && Answer(b, t).retryAfter > 1
    requires t <= early <= t + Answer(b, t).retryAfter as real - 1.0
    ensures !Admits(Consume(b, t), early)
  {
    var refused := Consume(b, t);
    var n := RetryAfter(refused) - 1;
    AdmitsAfterWaiting(refused, early - t);
    assert refused.lastRefill + (early - t) == early;
    if RefillsToken(refused, early - t) {
      LongerRefillsMore(refused, early - t, n as real);
    }
    if 0.0 < b.rate {
      AdviceIsLeast(refused, n);
    }
  }

  lemma {:induction false} RefusalsOnlyRefill(b: BucketState, times: seq<real>, later: real)
    requires 0.0 <= b.rate && b.lastRefill <= later && RefusedUntil(b, times, later)
    ensures Refill(FinalBucket(b, times), later) == Refill(b, later)
    decreases times
  {
    if times != [] {
      var b' := Consume(b, times[0]);
      assert !Replies(b, times)[0].allowed && b' == Refill(b, times[0]);
      assert RefusedUntil(b', times[1..], later) by {
        assert Replies(b, times)[1..] == Replies(b', times[1..]);
      }
      RefusalsOnlyRefill(b', times[1..], later);
      RefillComposes(b, times[0], later);
    }
  }

  lemma GapEarnsToken(t1: real, t2: real, rate: real)
    requires 0.0 < rate && t1 + 1.0 / rate <= t2
    ensures t1 <= t2 && 1.0 <= (t2 - t1) * rate
  {
    var gap := 1.0 / rate;
    assert gap * rate == 1.0;
    EarnsMore(gap, t2 - t1, rate);
  }

  /** A caller alone on a fresh bucket that spaces its calls at least 1/rate apart
      is never refused. */
  lemma {:induction false} SpacedCallsAreNeverRefused(b: BucketState, times: seq<real>)
    requires Sane(b) && 1.0 <= b.capacity && 0.0 < b.rate
    requires times != [] ==> b.lastRefill <= times[0] && Admits(b, times[0])
    requires forall i :: 0 <= i < |times| - 1 ==> times[i] + 1.0 / b.rate <= times[i + 1]
    ensures forall i :: 0 <= i < |times| ==> Replies(b, times)[i].allowed
    decreases times
  {
    if times != [] {
      var b' := Consume(b, times[0]);
      ConsumeKeepsBounds(b, times[0]);
      if |times| > 1 {
        GapEarnsToken(times[0], times[1], b.rate);
      }
      SpacedCallsAreNeverRefused(b', times[1..]);
      forall i | 0 <= i < |times|
        ensures Replies(b, times)[i].allowed
      {
        if i > 0 {
          assert Replies(b, times)[i] == Replies(b', times[1..])[i - 1];
        }
      }
    }
  }

  // ------------------------------------------------------------------
  // Many keys refine independent buckets
  // ------------------------------------------------------------------

  function TableReplies(m: map<string, BucketState>, capacity: real, rate: real, calls: seq<Call>): (r: seq<Reply>)
    ensures |r| == |calls|
    decreases calls
  {
    if calls == [] then []
    else
      [Answer(BucketFor(m, capacity, rate, calls[0]), calls[0].now)]
      + TableReplies(AfterCall(m, capacity, rate, calls[0]), capacity, rate, calls[1..])
  }

  function TimesOf(calls: seq<Call>, key: string): seq<real> {
    if calls == [] then []
    else (if calls[0].key == key then [calls[0].now] else []) + TimesOf(calls[1..], key)
  }

  function RepliesTo(calls: seq<Call>, replies: seq<Reply>, key: string): seq<Reply>
    requires |calls| == |replies|
  {
    if calls == [] then []
    else (if calls[0].key == key then [replies[0]] else []) + RepliesTo(calls[1..], replies[1..], key)
  }

  // A full bucket stays full until its first call, whenever it was made.
  lemma CreationTimeIsInvisible(capacity: real, rate: real, t1: real, t2: real, now: real)
    requires 0.0 <= rate && t1 <= now && t2 <= now
    ensures Refill(Full(capacity, rate, t1), now) == Refill(Full(capacity, rate, t2), now)
  {
    assert (now - t1) * rate >= 0.0 && (now - t2) * rate >= 0.0;
  }

  /** In any interleaving of calls on many keys, the answers one key gets are those
      of a private bucket run on that key's calls alone. */
  lemma {:induction false} KeysAreIndependent(m: map<string, BucketState>, capacity: real, rate: real,
                                              calls: seq<Call>, key: string, start: real)
    requires 0.0 <= rate
    requires forall i :: 0 <= i < |calls| ==> start <= calls[i].created <= calls[i].now
    ensures RepliesTo(calls, TableReplies(m, capacity, rate, calls), key)
         == Replies(if key in m then m[key] else Full(capacity, rate, start), TimesOf(calls, key))
    decreases calls
  {
    if calls != [] {
      var c, m' := calls[0], AfterCall(m, capacity, rate, calls[0]);
      KeysAreIndependent(m', capacity, rate, calls[1..], key, start);
      assert TableReplies(m, capacity, rate, calls)[1..] == TableReplies(m', capacity, rate, calls[1..]);
      if c.key == key {
        var own := if key in m then m[key] else Full(capacity, rate, start);
        if key !in m {
          CreationTimeIsInvisible(capacity, rate, start, c.created, c.now);
        }
        assert Consume(own, c.now) == m'[key];
        assert TimesOf(calls, key)[1..] == TimesOf(calls[1..], key);
        assert Replies(own, TimesOf(calls, key)) == [Answer(own, c.now)] + Replies(m'[key], TimesOf(calls[1..], key));
      } else {
        assert key in m' <==> key in m;
        assert TimesOf(calls, key) == TimesOf(calls[1..], key);
      }
    }
  }
}
