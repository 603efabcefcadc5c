/** RateLimit: one token bucket per key, refilled by elapsed time and capped at the burst. */
module RateLimit {
  import opened Options

  /** Tokens left and the time of the last request; seconds as exact reals. */
  datatype Bucket = Bucket(tokens: real, last: real)

  datatype Request = Request(key: string, now: real)

  function Burst(rate: real): real { if rate < 1.0 then 1.0 else rate }

  function Capped(tokens: real, burst: real): real { if tokens > burst then burst else tokens }

  function Found(buckets: map<string, Bucket>, rate: real, r: Request): Bucket {
    if r.key in buckets then buckets[r.key] else Bucket(Burst(rate), r.now)
  }

  /** Tokens earned in a time. */
  function Gain(elapsed: real, rate: real): real { elapsed * rate }

  lemma GainSplit(a: real, b: real, rate: real)
    ensures Gain(a - b, rate) == Gain(a, rate) - Gain(b, rate)
  {
  }

  lemma GainSign(elapsed: real, rate: real)
    requires elapsed >= 0.0 && rate > 0.0
    ensures Gain(elapsed, rate) >= 0.0 && Gain(0.0, rate) == 0.0
  {
  }

  /** The tokens a request finds in its bucket. */
  function Refilled(b: Bucket, rate: real, now: real): real {
    Capped(b.tokens + Gain(now - b.last, rate), Burst(rate))
  }

  predicate Admits(buckets: map<string, Bucket>, rate: real, r: Request) {
    Refilled(Found(buckets, rate, r), rate, r.now) >= 1.0
  }

  function After(buckets: map<string, Bucket>, rate: real, r: Request): map<string, Bucket> {
    var tokens := Refilled(Found(buckets, rate, r), rate, r.now);
    buckets[r.key := Bucket(if Admits(buckets, rate, r) then tokens - 1.0 else tokens, r.now)]
  }

  class Limiter {
    const enabled: bool
    const rate: real
    var buckets: map<string, Bucket>

    constructor (enabled: bool, rate: real)
      ensures this.enabled == enabled && this.rate == rate && buckets == map[]
    {
      this.enabled, this.rate, buckets := enabled, rate, map[];
    }

    /** One request, under the lock; false answers 429. */
    method Handle(key: string, now: real) returns (ok: bool)
      modifies this`buckets
      ensures !enabled || rate <= 0.0 ==> ok && buckets == old(buckets)
      ensures enabled && rate > 0.0 ==>
                && ok == Admits(old(buckets), rate, Request(key, now))
                && buckets == After(old(buckets), rate, Request(key, now))
    {
      hide Gain;
      if !enabled || rate <= 0.0 {
        return true;
      }
      var burst := rate;
      if burst < 1.0 {
        burst := 1.0;
      }
      var b := if key in buckets then buckets[key] else Bucket(burst, now);
      var elapsed := now - b.last;
      var tokens := b.tokens + Gain(elapsed, rate);
      if tokens > burst {
        tokens := burst;
      }
      if tokens < 1.0 {
        buckets := buckets[key := Bucket(tokens, now)];
        return false;
      }
      buckets := buckets[key := Bucket(tokens - 1.0, now)];
      return true;
    }
  }

  // ---------------------------------------------------------------- runs, in lock order

  function Buckets(rate: real, rs: seq<Request>): map<string, Bucket> {
    if rs == [] then map[] else After(Buckets(rate, rs[..|rs| - 1]), rate, rs[|rs| - 1])
  }

  /** Whether request number n of the run is admitted. */
  predicate Ok(rate: real, rs: seq<Request>, n: nat)
    requires n < |rs|
  {
    Admits(Buckets(rate, rs[..n]), rate, rs[n])
  }

  /** Admissions of the key among requests i to k - 1. */
  function Admitted(rate: real, rs: seq<Request>, key: string, i: nat, k: nat): nat
    requires i <= k <= |rs|
    decreases k
  {
    if i == k then 0
    else Admitted(rate, rs, key, i, k - 1) + (if rs[k - 1].key == key && Ok(rate, rs, k - 1) then 1 else 0)
  }

  lemma BucketsNext(rate: real, rs: seq<Request>, n: nat)
    requires n < |rs|
    ensures Buckets(rate, rs[..n + 1]) == After(Buckets(rate, rs[..n]), rate, rs[n])
  {
    assert rs[..n + 1][..n] == rs[..n];
  }

  /** The request leaves its key's bucket at the time of the request. */
  lemma OwnStep(buckets: map<string, Bucket>, rate: real, r: Request)
    ensures var b := After(buckets, rate, r)[r.key]; var one := if Admits(buckets, rate, r) then 1.0 else 0.0;
            && b.last == r.now
            && b.tokens == Refilled(Found(buckets, rate, r), rate, r.now) - one
            && b.tokens <= Burst(rate) - one
            && (r.key in buckets ==>
                  b.tokens - Gain(r.now, rate) <= buckets[r.key].tokens - Gain(buckets[r.key].last, rate) - one)
  {
    hide Gain;
    if r.key in buckets {
      GainSplit(r.now, buckets[r.key].last, rate);
    }
  }

  lemma OtherStep(buckets: map<string, Bucket>, rate: real, r: Request, key: string)
    requires r.key != key
    ensures key in After(buckets, rate, r) <==> key in buckets
    ensures key in buckets ==> After(buckets, rate, r)[key] == buckets[key]
  {
  }

  /** Tokens not refilled by time pay for every admission since request i. */
  lemma {:induction false} Paid(rate: real, rs: seq<Request>, key: string, i: nat, k: nat)
    requires i < k <= |rs| && rs[i].key == key
    ensures key in Buckets(rate, rs[..k])
    ensures var b := Buckets(rate, rs[..k])[key];
            Admitted(rate, rs, key, i, k) as real + b.tokens - Gain(b.last, rate) <= Burst(rate) - Gain(rs[i].now, rate)
    decreases k
  {
    hide Admits, Refilled, Found, After, Gain;
    BucketsNext(rate, rs, k - 1);
    var before := Buckets(rate, rs[..k - 1]);
    OwnStep(before, rate, rs[k - 1]);
    AfterHasKey(before, rate, rs[k - 1]);
    if k == i + 1 {
      assert Admitted(rate, rs, key, i, i) == 0;
    } else {
      Paid(rate, rs, key, i, k - 1);
      if rs[k - 1].key != key {
        OtherStep(before, rate, rs[k - 1], key);
      }
    }
  }

  lemma AfterHasKey(buckets: map<string, Bucket>, rate: real, r: Request)
    ensures r.key in After(buckets, rate, r)
  {
  }

  lemma AdmittedPays(buckets: map<string, Bucket>, rate: real, r: Request)
    requires Admits(buckets, rate, r)
    ensures r.key in After(buckets, rate, r)
    ensures After(buckets, rate, r)[r.key].tokens >= 0.0 && After(buckets, rate, r)[r.key].last == r.now
  {
    hide Gain, Found;
  }

  lemma BoundFromGain(rate: real, rs: seq<Request>, i: nat, k: nat)
    requires i <= k < |rs| && rs[i].key == rs[k].key && Ok(rate, rs, k)
    ensures Admitted(rate, rs, rs[k].key, i, k + 1) as real <= Burst(rate) + Gain(rs[k].now - rs[i].now, rate)
  {
    hide Admits, After, Burst, Gain, Buckets, Admitted;
    Paid(rate, rs, rs[k].key, i, k + 1);
    BucketsNext(rate, rs, k);
    AdmittedPays(Buckets(rate, rs[..k]), rate, rs[k]);
    GainSplit(rs[k].now, rs[i].now, rate);
  }

  /** Between any request of a key and a later admitted one, both counted, at most
      burst + rate * time requests of the key are admitted, whatever order the time stamps
      come in and whatever other keys do. The burst is the rate, and at least one. */
  lemma AdmissionBound(rate: real, rs: seq<Request>, i: nat, k: nat)
    requires i <= k < |rs| && rs[i].key == rs[k].key && Ok(rate, rs, k)
    ensures Admitted(rate, rs, rs[k].key, i, k + 1) as real
            <= (if rate < 1.0 then 1.0 else rate) + (rs[k].now - rs[i].now) * rate
  {
    hide Admits, After, Buckets, Admitted;
    BoundFromGain(rate, rs, i, k);
  }

  // ---------------------------------------------------------------- exactly who is admitted

  /** Request i of the key is one since which the tokens not refilled by time pay for exactly
      the admissions. */
  predicate SpentSince(rate: real, rs: seq<Request>, key: string, k: nat, i: int)
    requires k <= |rs| && key in Buckets(rate, rs[..k])
  {
    && 0 <= i < k && rs[i].key == key
    && var b := Buckets(rate, rs[..k])[key];
       Admitted(rate, rs, key, i, k) as real + b.tokens - Gain(b.last, rate) == Burst(rate) - Gain(rs[i].now, rate)
  }

  lemma SpentOther(rate: real, rs: seq<Request>, key: string, k: nat, i: int)
    requires 0 < k <= |rs| && rs[k - 1].key != key
    requires key in Buckets(rate, rs[..k - 1]) && SpentSince(rate, rs, key, k - 1, i)
    ensures key in Buckets(rate, rs[..k]) && SpentSince(rate, rs, key, k, i)
  {
    hide Admits, Refilled, Found, After, Gain, Ok, Buckets;
    BucketsNext(rate, rs, k - 1);
    OtherStep(Buckets(rate, rs[..k - 1]), rate, rs[k - 1], key);
  }

  /** A request that finds less than the burst adds to what was spent since some earlier one;
      one that finds the burst is the new start. */
  lemma SpentOwn(rate: real, rs: seq<Request>, k: nat, i: int)
    requires 0 < k <= |rs|
    requires var key, before := rs[k - 1].key, Buckets(rate, rs[..k - 1]);
             if key in before && Level(before, rate, rs[k - 1]) < Burst(rate) then SpentSince(rate, rs, key, k - 1, i)
             else i == k - 1
    ensures rs[k - 1].key in Buckets(rate, rs[..k]) && SpentSince(rate, rs, rs[k - 1].key, k, i)
  {
    hide Admits, Refilled, Found, After, Gain, Buckets;
    var key, before, r := rs[k - 1].key, Buckets(rate, rs[..k - 1]), rs[k - 1];
    BucketsNext(rate, rs, k - 1);
    AfterHasKey(before, rate, r);
    OwnLevel(before, rate, r);
    assert Admitted(rate, rs, key, k - 1, k - 1) == 0;
    assert Admitted(rate, rs, key, i, k) == Admitted(rate, rs, key, i, k - 1) + (if Ok(rate, rs, k - 1) then 1 else 0);
  }

  lemma {:induction false} Spent(rate: real, rs: seq<Request>, key: string, k: nat) returns (i: int)
    requires k <= |rs| && key in Buckets(rate, rs[..k])
    ensures SpentSince(rate, rs, key, k, i)
    decreases k
  {
    assert rs[..0] == [];
    i := 0;
    if k > 0 {
      BucketsNext(rate, rs, k - 1);
      hide Admits, Refilled, Found, After, Gain, Buckets, SpentSince, Admitted, Level;
      var before, r := Buckets(rate, rs[..k - 1]), rs[k - 1];
      if r.key != key {
        OtherStep(before, rate, r, key);
        i := Spent(rate, rs, key, k - 1);
        SpentOther(rate, rs, key, k, i);
      } else {
        i := k - 1;
        if r.key in before && Level(before, rate, r) < Burst(rate) {
          i := Spent(rate, rs, key, k - 1);
        }
        SpentOwn(rate, rs, k, i);
      }
    }
  }

  /** The tokens of a known key with what its time earned, before the cap. */
  function Level(buckets: map<string, Bucket>, rate: real, r: Request): real
    requires r.key in buckets
  {
    buckets[r.key].tokens - Gain(buckets[r.key].last, rate) + Gain(r.now, rate)
  }

  lemma OwnLevel(buckets: map<string, Bucket>, rate: real, r: Request)
    ensures var b := After(buckets, rate, r)[r.key]; var one := if Admits(buckets, rate, r) then 1.0 else 0.0;
            && b.last == r.now
            && b.tokens + one == (if r.key in buckets && Level(buckets, rate, r) < Burst(rate)
                                  then Level(buckets, rate, r) else Burst(rate))
            && (Admits(buckets, rate, r) <==> b.tokens + one >= 1.0)
  {
    hide Gain;
    if r.key in buckets {
      GainSplit(r.now, buckets[r.key].last, rate);
    }
    GainSplit(r.now, r.now, rate);
  }

  /** A request is admitted exactly when, from each request of its key on, itself included,
      those admitted and it stay within the burst and what the time since then earned. The
      burst is the rate, and at least one; time stamps may come in any order, and other keys
      play no part. */
  lemma AdmittedIff(rate: real, rs: seq<Request>, n: nat)
    requires n < |rs|
    ensures Ok(rate, rs, n)
            <==> forall i :: 0 <= i <= n && rs[i].key == rs[n].key ==>
                   (Admitted(rate, rs, rs[n].key, i, n) + 1) as real
                   <= (if rate < 1.0 then 1.0 else rate) + (rs[n].now - rs[i].now) * rate
  {
    hide Admits, After, Buckets, Admitted, Found, Refilled, Gain;
    var key, before := rs[n].key, Buckets(rate, rs[..n]);
    BucketsNext(rate, rs, n);
    OwnLevel(before, rate, rs[n]);
    forall i | 0 <= i <= n && rs[i].key == key
      ensures Ok(rate, rs, n) ==> (Admitted(rate, rs, key, i, n) + 1) as real <= Allowance(rate, rs, i, n)
    {
      if Ok(rate, rs, n) {
        BoundFromGain(rate, rs, i, n);
        AdmittedOne(rate, rs, i, n);
      }
    }
    if !Ok(rate, rs, n) {
      RejectedBy(rate, rs, n);
    }
    AllowanceIs(rate, rs, n);
  }

  /** Burst and earned tokens from request i to request n. */
  function Allowance(rate: real, rs: seq<Request>, i: nat, n: nat): real
    requires i < |rs| && n < |rs|
  {
    Burst(rate) + Gain(rs[n].now - rs[i].now, rate)
  }

  lemma AllowanceIs(rate: real, rs: seq<Request>, n: nat)
    requires n < |rs|
    ensures forall i :: 0 <= i <= n ==>
              Allowance(rate, rs, i, n) == (if rate < 1.0 then 1.0 else rate) + (rs[n].now - rs[i].now) * rate
  {
  }

  lemma AdmittedOne(rate: real, rs: seq<Request>, i: nat, n: nat)
    requires i <= n < |rs|
    ensures Admitted(rate, rs, rs[n].key, i, n + 1)
            == Admitted(rate, rs, rs[n].key, i, n) + (if Ok(rate, rs, n) then 1 else 0)
  {
    hide Ok;
  }

  lemma RejectedBy(rate: real, rs: seq<Request>, n: nat)
    requires n < |rs| && !Ok(rate, rs, n)
    ensures exists i :: 0 <= i <= n && rs[i].key == rs[n].key
              && (Admitted(rate, rs, rs[n].key, i, n) + 1) as real > Allowance(rate, rs, i, n)
  {
    hide Admits, After, Buckets, Admitted, Found, Refilled, Gain;
    var key, before := rs[n].key, Buckets(rate, rs[..n]);
    OwnLevel(before, rate, rs[n]);
    assert Burst(rate) >= 1.0;
    var i := Spent(rate, rs, key, n);
    GainSplit(rs[n].now, rs[i].now, rate);
  }

  /** Requests of the key among i to n - 1. */
  function Sent(rs: seq<Request>, key: string, i: nat, n: nat): nat
    requires i <= n <= |rs|
    decreases n
  {
    if i == n then 0 else Sent(rs, key, i, n - 1) + (if rs[n - 1].key == key then 1 else 0)
  }

  lemma {:induction false} AdmittedWithinSent(rate: real, rs: seq<Request>, key: string, i: nat, n: nat)
    requires i <= n <= |rs|
    ensures Admitted(rate, rs, key, i, n) <= Sent(rs, key, i, n) <= Sent(rs, key, 0, n)
    decreases n
  {
    hide Ok;
    if i < n {
      AdmittedWithinSent(rate, rs, key, i, n - 1);
    }
  }

  // ---------------------------------------------------------------- who is never rejected

  /** The key's own time stamps do not run backwards. */
  ghost predicate Monotone(rs: seq<Request>, key: string) {
    forall i, j :: 0 <= i < j < |rs| && rs[i].key == key && rs[j].key == key ==> rs[i].now <= rs[j].now
  }

  /** When the key's last request of the run came in. */
  function LastTime(rs: seq<Request>, key: string): Option<real> {
    if rs == [] then None
    else if rs[|rs| - 1].key == key then Some(rs[|rs| - 1].now)
    else LastTime(rs[..|rs| - 1], key)
  }

  lemma {:induction false} LastTimeAt(rs: seq<Request>, key: string)
    ensures LastTime(rs, key).Some? ==>
              exists j :: 0 <= j < |rs| && rs[j].key == key && rs[j].now == LastTime(rs, key).value
    decreases |rs|
  {
    if rs != [] && rs[|rs| - 1].key != key {
      var init := rs[..|rs| - 1];
      LastTimeAt(init, key);
      if LastTime(init, key).Some? {
        var j :| 0 <= j < |init| && init[j].key == key && init[j].now == LastTime(init, key).value;
        assert rs[j] == init[j];
      }
    }
  }

  /** What is known of a key's bucket after a run with monotone time. */
  ghost predicate InCredit(rs: seq<Request>, key: string, buckets: map<string, Bucket>) {
    && (key in buckets <==> LastTime(rs, key).Some?)
    && (key in buckets ==> buckets[key].tokens >= 0.0 && buckets[key].last == LastTime(rs, key).value)
  }

  lemma NonNegative(rate: real, buckets: map<string, Bucket>, r: Request)
    requires rate > 0.0
    requires r.key in buckets ==> buckets[r.key].tokens >= 0.0 && buckets[r.key].last <= r.now
    ensures After(buckets, rate, r)[r.key].tokens >= 0.0
    ensures r.key !in buckets ==> Admits(buckets, rate, r)
    ensures r.key in buckets && Gain(r.now - buckets[r.key].last, rate) >= 1.0 ==> Admits(buckets, rate, r)
  {
    hide Gain;
    var b := Found(buckets, rate, r);
    GainSign(r.now - b.last, rate);
  }

  lemma MonotoneFront(rs: seq<Request>, k: nat, key: string)
    requires k < |rs| && Monotone(rs, key) && rs[k].key == key
    ensures LastTime(rs[..k], key).Some? ==> LastTime(rs[..k], key).value <= rs[k].now
  {
    LastTimeAt(rs[..k], key);
    if LastTime(rs[..k], key).Some? {
      var j :| 0 <= j < k && rs[..k][j].key == key && rs[..k][j].now == LastTime(rs[..k], key).value;
      assert rs[..k][j] == rs[j];
    }
  }

  lemma {:induction false} StaysInCredit(rate: real, rs: seq<Request>, key: string, k: nat)
    requires rate > 0.0 && Monotone(rs, key) && k <= |rs|
    ensures InCredit(rs[..k], key, Buckets(rate, rs[..k]))
    decreases k
  {
    if k > 0 {
      hide After, Refilled, Admits, Gain, Monotone;
      var n := k - 1;
      var before, r := Buckets(rate, rs[..n]), rs[n];
      assert rs[..k][..n] == rs[..n];
      StaysInCredit(rate, rs, key, n);
      BucketsNext(rate, rs, n);
      if r.key == key {
        MonotoneFront(rs, n, key);
        NonNegative(rate, before, r);
        OwnStep(before, rate, r);
        AfterHasKey(before, rate, r);
      } else {
        OtherStep(before, rate, r, key);
      }
    }
  }

  /** With time that does not run backwards, a key's first requests up to the burst are
      admitted, at the same instant or not. */
  lemma BurstAdmitted(rate: real, rs: seq<Request>, n: nat)
    requires rate > 0.0 && n < |rs| && Monotone(rs, rs[n].key)
    requires (Sent(rs, rs[n].key, 0, n) + 1) as real <= (if rate < 1.0 then 1.0 else rate)
    ensures Ok(rate, rs, n)
  {
    hide Ok, Admitted, Sent, Gain;
    AdmittedIff(rate, rs, n);
    AllowanceIs(rate, rs, n);
    forall i | 0 <= i <= n && rs[i].key == rs[n].key
      ensures (Admitted(rate, rs, rs[n].key, i, n) + 1) as real
              <= (if rate < 1.0 then 1.0 else rate) + (rs[n].now - rs[i].now) * rate
    {
      AdmittedWithinSent(rate, rs, rs[n].key, i, n);
      var elapsed := rs[n].now - rs[i].now;
      assert i < n ==> rs[i].now <= rs[n].now;
      GainSign(elapsed, rate);
      var admitted, sent := Admitted(rate, rs, rs[n].key, i, n) + 1, Sent(rs, rs[n].key, 0, n) + 1;
      assert admitted as real <= sent as real <= Burst(rate) <= Allowance(rate, rs, i, n);
    }
  }

  /** With time that does not run backwards, a key's first request, and any request at
      least 1/rate after the key's previous one, is admitted. */
  lemma SpacedNeverRejected(rate: real, rs: seq<Request>, k: nat)
    requires rate > 0.0 && k < |rs| && Monotone(rs, rs[k].key)
    requires var last := LastTime(rs[..k], rs[k].key);
             last.Some? ==> (rs[k].now - last.value) * rate >= 1.0
    ensures Ok(rate, rs, k)
  {
    hide After, Refilled, Admits, Buckets, Monotone;
    StaysInCredit(rate, rs, rs[k].key, k);
    MonotoneFront(rs, k, rs[k].key);
    NonNegative(rate, Buckets(rate, rs[..k]), rs[k]);
  }
}
