/** The login rate limiter (internal/hub/adapter/primary/httpapi/ratelimit.go): a fixed-window counter per
    key whose stale entries are swept every hundredth call. Times are whole clock ticks. */
module RateLimiter {
  import opened Basics

  /** A client address, as an opaque id. */
  type Key = int

  datatype Entry = Entry(count: int, windowEnd: int)

  datatype Limits = Limits(max: int, window: nat)

  type Entries = map<Key, Entry>

  const EVICT_INTERVAL := 100

  datatype Answer = Answer(ok: bool, retryAfter: int)

  datatype Request = Request(key: Key, now: int)

  // ---------- one request ----------

  /** No window is open for the key. */
  predicate Expired(es: Entries, key: Key, now: int) { key !in es || now > es[key].windowEnd }

  function AllowAnswer(l: Limits, es: Entries, r: Request): Answer {
    if Expired(es, r.key, r.now) || es[r.key].count < l.max then Answer(true, 0)
    else Answer(false, es[r.key].windowEnd - r.now)
  }

  function AllowEntries(l: Limits, es: Entries, r: Request): Entries {
    if Expired(es, r.key, r.now) then es[r.key := Entry(1, r.now + l.window)]
    else if es[r.key].count >= l.max then es
    else es[r.key := es[r.key].(count := es[r.key].count + 1)]
  }

  /** The sweep drops the entries whose window has passed. */
  function Evicted(es: Entries, now: int): Entries { map k | k in es && now <= es[k].windowEnd :: es[k] }

  /** After a refusal the key is refused again up to and including the time it was told to wait, and is
      granted after it. */
  lemma RetryAfterExact(l: Limits, es: Entries, r: Request, later: int)
    requires !AllowAnswer(l, es, r).ok && later >= r.now
    ensures AllowAnswer(l, AllowEntries(l, es, r), Request(r.key, later)).ok <==>
            later > r.now + AllowAnswer(l, es, r).retryAfter
    ensures AllowAnswer(l, es, r).retryAfter >= 0
  {
  }

  // ---------- sweeping never shows ----------

  /** The limiter that never sweeps. */
  function PlainAnswers(l: Limits, es: Entries, rs: seq<Request>): seq<Answer>
    decreases |rs|
  {
    if rs == [] then [] else [AllowAnswer(l, es, rs[0])] + PlainAnswers(l, AllowEntries(l, es, rs[0]), rs[1..])
  }

  /** The entries a request finds after the sweep it may start. */
  function Swept(es: Entries, calls: nat, now: int): Entries {
    if (calls + 1) % EVICT_INTERVAL == 0 then Evicted(es, now) else es
  }

  function Answers(l: Limits, es: Entries, calls: nat, rs: seq<Request>): seq<Answer>
    decreases |rs|
  {
    if rs == [] then []
    else
      var swept := Swept(es, calls, rs[0].now);
      [AllowAnswer(l, swept, rs[0])] + Answers(l, AllowEntries(l, swept, rs[0]), calls + 1, rs[1..])
  }

  /** The clock does not go back, and starts at or after `t`. */
  ghost predicate Sorted(rs: seq<Request>, t: int) {
    && (forall i :: 0 <= i < |rs| ==> t <= rs[i].now)
    && (forall i, j :: 0 <= i < j < |rs| ==> rs[i].now <= rs[j].now)
  }

  lemma SortedTail(rs: seq<Request>, t: int)
    requires Sorted(rs, t) && rs != []
    ensures t <= rs[0].now && Sorted(rs[1..], rs[0].now)
  {
    forall i | 0 <= i < |rs[1..]| ensures rs[0].now <= rs[1..][i].now { assert rs[1..][i] == rs[i + 1]; }
    forall i, j | 0 <= i < j < |rs[1..]| ensures rs[1..][i].now <= rs[1..][j].now {
      assert rs[1..][i] == rs[i + 1] && rs[1..][j] == rs[j + 1];
    }
  }

  /** One table is the other without some entries that expired before time `t`. */
  ghost predicate Leaner(a: Entries, b: Entries, t: int) {
    && (forall k :: k in a ==> k in b && a[k] == b[k])
    && (forall k :: k in b && k !in a ==> b[k].windowEnd < t)
  }

  lemma LeanerStep(l: Limits, a: Entries, b: Entries, calls: nat, r: Request, t: int)
    requires Leaner(a, b, t) && t <= r.now
    ensures var swept := Swept(a, calls, r.now);
            && AllowAnswer(l, swept, r) == AllowAnswer(l, b, r)
            && Leaner(AllowEntries(l, swept, r), AllowEntries(l, b, r), r.now)
  {
    var swept := Swept(a, calls, r.now);
    assert Leaner(swept, b, r.now);
    var a', b' := AllowEntries(l, swept, r), AllowEntries(l, b, r);
    assert r.key in swept ==> swept[r.key] == b[r.key];
    assert forall k :: k != r.key ==> (k in a' <==> k in swept) && (k in b' <==> k in b);
  }

  /** Sweeping never changes an answer. */
  lemma {:induction false} EvictionTransparent(l: Limits, a: Entries, b: Entries, calls: nat, rs: seq<Request>, t: int)
    requires Leaner(a, b, t) && Sorted(rs, t)
    ensures Answers(l, a, calls, rs) == PlainAnswers(l, b, rs)
    decreases |rs|
  {
    if rs != [] {
      SortedTail(rs, t);
      LeanerStep(l, a, b, calls, rs[0], t);
      var swept := Swept(a, calls, rs[0].now);
      EvictionTransparent(l, AllowEntries(l, swept, rs[0]), AllowEntries(l, b, rs[0]), calls + 1, rs[1..], rs[0].now);
    }
  }

  // ---------- how much is granted ----------

  /** The first request of a window is granted whatever the limit. */
  function Budget(l: Limits): nat { if l.max < 1 then 1 else l.max }

  /** The grants of a key in the closed interval from `lo` to `hi`. */
  function Grants(rs: seq<Request>, answers: seq<Answer>, key: Key, lo: int, hi: int): nat
    requires |answers| == |rs|
    decreases |rs|
  {
    if rs == [] then 0
    else (if rs[0].key == key && lo <= rs[0].now <= hi && answers[0].ok then 1 else 0)
         + Grants(rs[1..], answers[1..], key, lo, hi)
  }

  lemma {:induction false} AnswerPerRequest(l: Limits, es: Entries, calls: nat, rs: seq<Request>)
    ensures |PlainAnswers(l, es, rs)| == |rs| && |Answers(l, es, calls, rs)| == |rs|
    decreases |rs|
  {
    if rs != [] {
      AnswerPerRequest(l, AllowEntries(l, es, rs[0]), calls, rs[1..]);
      AnswerPerRequest(l, AllowEntries(l, Swept(es, calls, rs[0].now), rs[0]), calls + 1, rs[1..]);
    }
  }

  ghost function PlainGrants(l: Limits, es: Entries, rs: seq<Request>, key: Key, lo: int): nat {
    AnswerPerRequest(l, es, 0, rs);
    Grants(rs, PlainAnswers(l, es, rs), key, lo, lo + l.window)
  }

  lemma PlainGrantsStep(l: Limits, es: Entries, rs: seq<Request>, key: Key, lo: int)
    requires rs != []
    ensures PlainGrants(l, es, rs, key, lo) ==
            (if rs[0].key == key && lo <= rs[0].now <= lo + l.window && AllowAnswer(l, es, rs[0]).ok then 1 else 0)
            + PlainGrants(l, AllowEntries(l, es, rs[0]), rs[1..], key, lo)
  {
    AnswerPerRequest(l, es, 0, rs);
    assert PlainAnswers(l, es, rs)[1..] == PlainAnswers(l, AllowEntries(l, es, rs[0]), rs[1..]);
  }

  /** How much the key can still be granted in the interval of one window from `lo` when the clock shows `t`:
      nothing after the interval; the rest of a window that outlasts it; the rest of a window that ends in
      it and a whole new one; or the rest of a window that will start before it and a whole new one. */
  function Potential(l: Limits, es: Entries, key: Key, lo: int, t: int): int {
    if t > lo + l.window then 0
    else if key !in es || es[key].windowEnd < lo then 2 * Budget(l) - 1
    else if es[key].windowEnd < lo + l.window then 2 * Budget(l) - es[key].count
    else Budget(l) - es[key].count
  }

  predicate Wf(l: Limits, es: Entries, key: Key) { key in es ==> 1 <= es[key].count <= Budget(l) }

  lemma PotentialFalls(l: Limits, es: Entries, r: Request, key: Key, lo: int, t: int)
    requires Wf(l, es, key) && t <= r.now
    ensures Wf(l, AllowEntries(l, es, r), key)
    ensures Potential(l, AllowEntries(l, es, r), key, lo, r.now)
            + (if r.key == key && lo <= r.now <= lo + l.window && AllowAnswer(l, es, r).ok then 1 else 0)
            <= Potential(l, es, key, lo, t)
    ensures Potential(l, es, key, lo, t) >= 0
  {
  }

  lemma {:induction false} GrantsWithinPotential(l: Limits, es: Entries, rs: seq<Request>, key: Key, lo: int, t: int)
    requires Wf(l, es, key) && Sorted(rs, t)
    ensures PlainGrants(l, es, rs, key, lo) <= Potential(l, es, key, lo, t)
    decreases |rs|
  {
    if rs == [] {
      PotentialFalls(l, es, Request(key, t), key, lo, t);
    } else {
      SortedTail(rs, t);
      PlainGrantsStep(l, es, rs, key, lo);
      PotentialFalls(l, es, rs[0], key, lo, t);
      GrantsWithinPotential(l, AllowEntries(l, es, rs[0]), rs[1..], key, lo, rs[0].now);
    }
  }

  /** The grants a new limiter, sweeping as it does, gives a key in one window's length from `lo`. */
  ghost function RealGrants(l: Limits, rs: seq<Request>, key: Key, lo: int): nat {
    AnswerPerRequest(l, map[], 0, rs);
    Grants(rs, Answers(l, map[], 0, rs), key, lo, lo + l.window)
  }

  lemma RealIsPlain(l: Limits, rs: seq<Request>, key: Key, lo: int, t: int)
    requires Sorted(rs, t)
    ensures RealGrants(l, rs, key, lo) == PlainGrants(l, map[], rs, key, lo)
  {
    EvictionTransparent(l, map[], map[], 0, rs, t);
  }

  /** In any interval of one window's length a key gets at most one less than two budgets. */
  lemma GrantBound(l: Limits, rs: seq<Request>, key: Key, lo: int, t: int)
    requires Sorted(rs, t)
    ensures RealGrants(l, rs, key, lo) <= 2 * Budget(l) - 1
  {
    RealIsPlain(l, rs, key, lo, t);
    GrantsWithinPotential(l, map[], rs, key, lo, t);
  }

  // ---------- the bound is reached ----------

  function Repeat(r: Request, n: nat): seq<Request> { seq(n, _ => r) }

  /** A burst inside an open window with room for it is granted whole. */
  lemma {:induction false} BurstGranted(l: Limits, es: Entries, r: Request, n: nat, rest: seq<Request>, lo: int)
    requires r.key in es && r.now <= es[r.key].windowEnd && es[r.key].count + n <= l.max && lo <= r.now <= lo + l.window
    ensures PlainGrants(l, es, Repeat(r, n) + rest, r.key, lo) ==
            n + PlainGrants(l, es[r.key := es[r.key].(count := es[r.key].count + n)], rest, r.key, lo)
    decreases n
  {
    if n == 0 {
      assert Repeat(r, n) + rest == rest;
      assert es[r.key := es[r.key].(count := es[r.key].count + 0)] == es;
    } else {
      var all := Repeat(r, n) + rest;
      var es' := AllowEntries(l, es, r);
      assert all[0] == r && all[1..] == Repeat(r, n - 1) + rest;
      PlainGrantsStep(l, es, all, r.key, lo);
      BurstGranted(l, es', r, n - 1, rest, lo);
      assert es'[r.key := es'[r.key].(count := es'[r.key].count + (n - 1))] ==
             es[r.key := es[r.key].(count := es[r.key].count + n)];
    }
  }

  /** One request, a burst at the very end of its window, and a burst in the next. */
  function Worst(l: Limits, key: Key): seq<Request>
    requires l.max >= 1
  {
    [Request(key, 0)] + (Repeat(Request(key, l.window), l.max - 1) +
    ([Request(key, l.window + 1)] + (Repeat(Request(key, l.window + 1), l.max - 1) + [])))
  }

  lemma WorstSorted(l: Limits, key: Key)
    requires l.max >= 1
    ensures Sorted(Worst(l, key), 0)
  {
    var rs := Worst(l, key);
    forall i | 0 <= i < |rs| ensures rs[i].now == if i == 0 then 0 else if i < l.max then l.window else l.window + 1 {}
  }

  lemma WorstReaches(l: Limits, key: Key)
    requires l.max >= 1 && l.window >= 1
    ensures RealGrants(l, Worst(l, key), key, l.window) == 2 * Budget(l) - 1
  {
    WorstSorted(l, key);
    RealIsPlain(l, Worst(l, key), key, l.window, 0);
    SecondWindow(l, key);
    FirstWindow(l, key);
  }

  ghost function Full(l: Limits, key: Key): Entries { map[key := Entry(l.max, l.window)] }

  lemma FirstWindow(l: Limits, key: Key)
    requires l.max >= 1 && l.window >= 1
    ensures var rest := [Request(key, l.window + 1)] + (Repeat(Request(key, l.window + 1), l.max - 1) + []);
            PlainGrants(l, map[], Worst(l, key), key, l.window) ==
              l.max - 1 + PlainGrants(l, Full(l, key), rest, key, l.window)
  {
    hide PlainGrants, Repeat;
    var rest := [Request(key, l.window + 1)] + (Repeat(Request(key, l.window + 1), l.max - 1) + []);
    var burst := Repeat(Request(key, l.window), l.max - 1);
    var rs := Worst(l, key);
    assert rs[0] == Request(key, 0) && rs[1..] == burst + rest;
    PlainGrantsStep(l, map[], rs, key, l.window);
    var es := AllowEntries(l, map[], rs[0]);
    assert es == map[key := Entry(1, l.window)];
    BurstGranted(l, es, Request(key, l.window), l.max - 1, rest, l.window);
    assert es[key := es[key].(count := 1 + (l.max - 1))] == Full(l, key);
  }

  lemma SecondWindow(l: Limits, key: Key)
    requires l.max >= 1 && l.window >= 1
    ensures var rest := [Request(key, l.window + 1)] + (Repeat(Request(key, l.window + 1), l.max - 1) + []);
            PlainGrants(l, Full(l, key), rest, key, l.window) == l.max
  {
    hide PlainGrants, Repeat;
    var r := Request(key, l.window + 1);
    var rest := [r] + (Repeat(r, l.max - 1) + []);
    assert rest[0] == r && rest[1..] == Repeat(r, l.max - 1) + [];
    PlainGrantsStep(l, Full(l, key), rest, key, l.window);
    var es := AllowEntries(l, Full(l, key), r);
    BurstGranted(l, es, r, l.max - 1, [], l.window);
    NothingGranted(l, es[key := es[key].(count := es[key].count + (l.max - 1))], key, l.window);
  }

  lemma NothingGranted(l: Limits, es: Entries, key: Key, lo: int)
    ensures PlainGrants(l, es, [], key, lo) == 0
  {
  }

  /** What the comment on the limiter promises: at most `max` in any window. */
  ghost predicate Promised(l: Limits) {
    forall rs, key, lo, t :: Sorted(rs, t) ==> RealGrants(l, rs, key, lo) <= l.max
  }

  /** A single request is granted whatever the limit. */
  lemma FirstGranted(l: Limits, key: Key)
    ensures Sorted([Request(key, 0)], 0) && RealGrants(l, [Request(key, 0)], key, 0) == 1
  {
    var rs := [Request(key, 0)];
    RealIsPlain(l, rs, key, 0, 0);
    PlainGrantsStep(l, map[], rs, key, 0);
    assert rs[1..] == [];
    NothingGranted(l, AllowEntries(l, map[], rs[0]), key, 0);
  }

  /** With a window of no length, what the key can still be granted at the instant `lo`. */
  function InstantPotential(l: Limits, es: Entries, key: Key, lo: int, t: int): int {
    if t > lo then 0 else if key in es && es[key].windowEnd == lo then Budget(l) - es[key].count else Budget(l)
  }

  lemma {:induction false} InstantGrants(l: Limits, es: Entries, rs: seq<Request>, key: Key, lo: int, t: int)
    requires l.window == 0 && Wf(l, es, key) && (key in es ==> es[key].windowEnd <= t) && Sorted(rs, t)
    ensures PlainGrants(l, es, rs, key, lo) <= InstantPotential(l, es, key, lo, t)
    decreases |rs|
  {
    if rs == [] {
      NothingGranted(l, es, key, lo);
    } else {
      SortedTail(rs, t);
      PlainGrantsStep(l, es, rs, key, lo);
      InstantGrants(l, AllowEntries(l, es, rs[0]), rs[1..], key, lo, rs[0].now);
    }
  }

  /** The promise is kept exactly for a limit of one, or for a window of no length and a limit of at least
      one: a lower limit still lets the first request through, a higher one lets nearly twice as many through
      around the end of a window. */
  lemma PromisedIff(l: Limits)
    ensures Promised(l) <==> l.max == 1 || (l.max > 1 && l.window == 0)
  {
    if l.max < 1 {
      FirstGranted(l, 0);
      assert RealGrants(l, [Request(0, 0)], 0, 0) > l.max;
    } else if l.max == 1 {
      forall rs, key, lo, t | Sorted(rs, t) ensures RealGrants(l, rs, key, lo) <= l.max {
        GrantBound(l, rs, key, lo, t);
      }
    } else if l.window == 0 {
      forall rs, key, lo, t | Sorted(rs, t) ensures RealGrants(l, rs, key, lo) <= l.max {
        RealIsPlain(l, rs, key, lo, t);
        InstantGrants(l, map[], rs, key, lo, t);
      }
    } else {
      WorstSorted(l, 0);
      WorstReaches(l, 0);
      assert RealGrants(l, Worst(l, 0), 0, l.window) > l.max;
    }
  }

  // ---------- the limiter ----------

  class Limiter {
    const limits: Limits
    var entries: Entries
    var callCount: nat

    constructor (l: Limits)
      ensures limits == l && entries == map[] && callCount == 0
    {
      limits := l;
      entries := map[];
      callCount := 0;
    }

    method Evict(now: int)
      modifies this`entries
      ensures entries == Evicted(old(entries), now)
      ensures forall k :: k in entries <==> k in old(entries) && now <= old(entries)[k].windowEnd
      ensures forall k :: k in entries ==> entries[k] == old(entries)[k]
    {
      var todo := entries.Keys;
      while todo != {}
        invariant todo <= entries.Keys
        invariant entries ==
                  map k | k in old(entries) && (k in todo || now <= old(entries)[k].windowEnd) :: old(entries)[k]
      {
        SomeMember(todo);
        var k :| k in todo;
        if now > entries[k].windowEnd { entries := entries - {k}; }
        todo := todo - {k};
      }
    }

    /** A key without a window, or past its end, starts one and is granted; within one it is granted below the
        limit and otherwise told how long the window lasts. Every hundredth call the other elapsed entries go. */
    method Allow(r: Request) returns (a: Answer)
      modifies this
      ensures callCount == old(callCount) + 1
      ensures var swept := Swept(old(entries), old(callCount), r.now);
              a == AllowAnswer(limits, swept, r) && entries == AllowEntries(limits, swept, r)
      ensures var starts := r.key !in old(entries) || r.now > old(entries)[r.key].windowEnd;
              && r.key in entries
              && (starts ==> a == Answer(true, 0) && entries[r.key] == Entry(1, r.now + limits.window))
              && (!starts ==>
                    var e := old(entries)[r.key];
                    if e.count < limits.max
                    then a == Answer(true, 0) && entries[r.key] == Entry(e.count + 1, e.windowEnd)
                    else a == Answer(false, e.windowEnd - r.now) && entries[r.key] == e)
      ensures forall k :: k != r.key ==>
                (k in entries <==>
                   k in old(entries) && (callCount % 100 == 0 ==> r.now <= old(entries)[k].windowEnd))
      ensures forall k :: k != r.key && k in entries ==> entries[k] == old(entries)[k]
    {
      callCount := callCount + 1;
      if callCount % EVICT_INTERVAL == 0 { Evict(r.now); }
      if r.key !in entries || r.now > entries[r.key].windowEnd {
        entries := entries[r.key := Entry(1, r.now + limits.window)];
        return Answer(true, 0);
      }
      var e := entries[r.key];
      if e.count >= limits.max { return Answer(false, e.windowEnd - r.now); }
      entries := entries[r.key := e.(count := e.count + 1)];
      return Answer(true, 0);
    }
  }
}
