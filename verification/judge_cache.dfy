/** The retrying judge and the score cache before it: what is counted as unrecovered, and what may be kept. */
module JudgeCache {
  import opened Options

  type Key = nat

  /** Why a read fell open: the call failed, or its answer could not be read. */
  datatype Cause = Failed | Unparsed

  datatype JudgeRead = JudgeRead(score: real, fellOpen: bool, cause: Cause)

  /** A judge answers its calls one after the other, as it likes. */
  type Judge = (nat, Key) -> JudgeRead

  function Pow2(n: nat): (p: nat)
    ensures p >= 1
  {
    if n == 0 then 1 else 2 * Pow2(n - 1)
  }

  lemma {:induction false} Pow2Grows(a: nat, b: nat)
    requires a <= b
    ensures Pow2(a) <= Pow2(b)
  {
    if a < b { Pow2Grows(a, b - 1); }
  }

  /** The pauses after `n` failed calls, each twice the last, come to this. */
  function Waited(backoff: real, n: nat): real { backoff * (Pow2(n) - 1) as real }

  lemma NoWait(backoff: real)
    ensures Waited(backoff, 0) == 0.0
  {}

  lemma Doubling(backoff: real, n: nat)
    ensures Waited(backoff, n) + backoff * Pow2(n) as real == Waited(backoff, n + 1)
  {
    assert (Pow2(n) - 1) as real + Pow2(n) as real == (Pow2(n + 1) - 1) as real;
    Distributes(backoff, (Pow2(n) - 1) as real, Pow2(n) as real);
  }

  lemma Distributes(a: real, b: real, c: real)
    ensures a * b + a * c == a * (b + c)
  {}

  /** The calls that are followed by another: those that failed outright. */
  predicate Again(r: JudgeRead) { r.fellOpen && r.cause == Failed }

  /** A judge was really heard, on this key, in one of these calls, and gave this score. */
  ghost predicate Judged(judge: Judge, from: nat, to: nat, k: Key, score: real) {
    exists i :: from <= i < to && !judge(i, k).fellOpen && judge(i, k).score == score
  }

  class RetryingJudge {
    const judge: Judge
    const attempts: nat
    const backoff: real
    var calls: nat
    var gaveUp: nat
    var slept: real

    constructor (judge: Judge, attempts: nat, backoff: real)
      requires attempts >= 1
      ensures this.judge == judge && this.attempts == attempts && this.backoff == backoff
      ensures calls == 0 && gaveUp == 0 && slept == 0.0
    {
      this.judge, this.attempts, this.backoff := judge, attempts, backoff;
      calls, gaveUp, slept := 0, 0, 0.0;
    }

    ghost predicate Valid() { attempts >= 1 }

    /**
      * The first call that is not to be retried, or the last one allowed, is the read; it counts as given
      * up exactly when it fell open; and the waits double.
      */
    method Read(k: Key) returns (got: JudgeRead)
      requires Valid()
      modifies this
      ensures old(calls) < calls <= old(calls) + attempts && got == judge(calls - 1, k)
      ensures forall i :: old(calls) <= i < calls - 1 ==> Again(judge(i, k))
      ensures Again(got) ==> calls == old(calls) + attempts
      ensures gaveUp == old(gaveUp) + (if got.fellOpen then 1 else 0)
      ensures slept == old(slept) + Waited(backoff, calls - old(calls) - 1)
    {
      var attempt := 0;
      got := JudgeRead(1.0, true, Failed);
      NoWait(backoff);
      hide Waited;
      while attempt < attempts
        invariant attempt <= attempts && calls == old(calls) + attempt && gaveUp == old(gaveUp)
        invariant attempt > 0 ==> got == judge(calls - 1, k) && Again(got)
        invariant forall i :: old(calls) <= i < calls ==> Again(judge(i, k))
        invariant slept == old(slept) + Waited(backoff, if attempt == attempts then attempt - 1 else attempt)
      {
        got := judge(calls, k);
        calls := calls + 1;
        if !got.fellOpen { return; }
        if got.cause == Unparsed {
          gaveUp := gaveUp + 1;
          return;
        }
        if attempt + 1 < attempts {
          Doubling(backoff, attempt);
          slept := slept + backoff * Pow2(attempt) as real;
        }
        attempt := attempt + 1;
      }
      gaveUp := gaveUp + 1;
    }

    method Score(k: Key) returns (score: real)
      requires Valid()
      modifies this
      ensures old(calls) < calls <= old(calls) + attempts && score == judge(calls - 1, k).score
      ensures gaveUp == old(gaveUp) + (if judge(calls - 1, k).fellOpen then 1 else 0)
      ensures slept == old(slept) + Waited(backoff, calls - old(calls) - 1)
    {
      var got := Read(k);
      score := got.score;
    }
  }

  /** One read's waits, however it goes: at most `backoff * (2^(attempts - 1) - 1)`. */
  lemma WaitIsBounded(backoff: real, attempts: nat, made: nat)
    requires backoff >= 0.0 && 1 <= made <= attempts
    ensures Waited(backoff, made - 1) <= backoff * (Pow2(attempts - 1) - 1) as real
  {
    Pow2Grows(made - 1, attempts - 1);
    Scales(backoff, (Pow2(made - 1) - 1) as real, (Pow2(attempts - 1) - 1) as real);
  }

  lemma Scales(a: real, b: real, c: real)
    requires a >= 0.0 && b <= c
    ensures a * b <= a * c
  {}

  /** How many of the keys, repeats counted, the cache does not hold. */
  function Absent(keys: seq<Key>, cache: map<Key, real>): nat {
    if keys == [] then 0 else Absent(keys[..|keys| - 1], cache) + (if keys[|keys| - 1] in cache then 0 else 1)
  }

  lemma {:induction false} AbsentNone(keys: seq<Key>, cache: map<Key, real>)
    ensures Absent(keys, cache) <= |keys|
    ensures (forall i :: 0 <= i < |keys| ==> keys[i] in cache) <==> Absent(keys, cache) == 0
  {
    if keys != [] { AbsentNone(keys[..|keys| - 1], cache); }
  }

  class CachingJudge {
    const inner: RetryingJudge
    var cache: map<Key, real>

    constructor (inner: RetryingJudge, cache: map<Key, real>)
      ensures this.inner == inner && this.cache == cache
    {
      this.inner, this.cache := inner, cache;
    }

    /** A key held costs no call. One that is not is asked, and its score kept exactly if it was a judgement. */
    method Score(k: Key) returns (score: real)
      requires inner.Valid()
      modifies this, inner
      ensures k in old(cache) ==> score == old(cache)[k] && cache == old(cache) && inner.calls == old(inner.calls)
      ensures k in old(cache) ==> inner.gaveUp == old(inner.gaveUp)
      ensures k !in old(cache) ==>
                old(inner.calls) < inner.calls <= old(inner.calls) + inner.attempts &&
                var last := inner.judge(inner.calls - 1, k);
                score == last.score && cache == (if last.fellOpen then old(cache) else old(cache)[k := score]) &&
                inner.gaveUp == old(inner.gaveUp) + (if last.fellOpen then 1 else 0)
    {
      if k in cache { return cache[k]; }
      var before := inner.gaveUp;
      score := inner.Score(k);
      if inner.gaveUp != before { return; }
      cache := cache[k := score];
    }

    /**
      * A run over any list of keys, from whatever an earlier run kept. Nothing kept is lost or changed; what
      * is added was judged, on that key, in this run; and a key left out is one that fell open.
      */
    method Sweep(keys: seq<Key>) returns (scores: seq<real>)
      requires inner.Valid()
      modifies this, inner
      ensures |scores| == |keys|
      ensures forall k :: k in old(cache) ==> k in cache && cache[k] == old(cache)[k]
      ensures forall k :: k in cache && k !in old(cache) ==>
                            k in keys && Judged(inner.judge, old(inner.calls), inner.calls, k, cache[k])
      ensures forall i :: 0 <= i < |keys| && keys[i] in old(cache) ==> scores[i] == old(cache)[keys[i]]
      ensures (forall i :: 0 <= i < |keys| ==> keys[i] in cache) <== inner.gaveUp == old(inner.gaveUp)
      ensures old(inner.calls) <= inner.calls <= old(inner.calls) + inner.attempts * Absent(keys, old(cache))
      ensures (forall i :: 0 <= i < |keys| ==> keys[i] in old(cache)) ==> inner.calls == old(inner.calls)
    {
      scores := [];
      var i := 0;
      while i < |keys|
        invariant 0 <= i <= |keys| && |scores| == i
        invariant old(inner.calls) <= inner.calls <= old(inner.calls) + inner.attempts * Absent(keys[..i], old(cache))
        invariant old(inner.gaveUp) <= inner.gaveUp
        invariant forall k :: k in old(cache) ==> k in cache && cache[k] == old(cache)[k]
        invariant forall k :: k in cache && k !in old(cache) ==>
                                k in keys && Judged(inner.judge, old(inner.calls), inner.calls, k, cache[k])
        invariant forall j :: 0 <= j < i && keys[j] in old(cache) ==> scores[j] == old(cache)[keys[j]]
        invariant inner.gaveUp == old(inner.gaveUp) ==> forall j :: 0 <= j < i ==> keys[j] in cache
      {
        ghost var calls := inner.calls;
        var score := Score(keys[i]);
        MoreCalls(inner.attempts, Absent(keys[..i], old(cache)));
        assert keys[..i + 1][..i] == keys[..i];
        if keys[i] in cache {
          assert inner.calls > calls ==> cache[keys[i]] == inner.judge(inner.calls - 1, keys[i]).score;
        }
        scores := scores + [score];
        i := i + 1;
      }
      assert keys[..i] == keys;
      AbsentNone(keys, old(cache));
    }
  }

  lemma MoreCalls(attempts: nat, n: nat)
    ensures attempts * (n + 1) == attempts * n + attempts
  {}
}
