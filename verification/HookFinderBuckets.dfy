/** The limit on the records of one bucket, under every interleaving of DoSend calls. */
module HookFinderBuckets {
  import opened MachineTypes
  import opened HookFinderModel
  import opened HookFinderRuns

  /** The calls of a bucket that got past its limit. */
  function PassedIn(s: State, bucket: int): set<int> {
    set id | id in s.calls && s.calls[id].send.bucket == bucket && (s.calls[id].at.Counted? || HasIndex(s.calls[id].at))
  }

  /** The calls of a bucket that stored their record. */
  function StoredIn(s: State, bucket: int): set<int> {
    set id | id in s.calls && s.calls[id].send.bucket == bucket && s.calls[id].at.Stored?
  }

  predicate Bounded(s: State, b: nat) {
    && Sized(s.shared) && b < CACHE_SIZE && 0 <= s.shared.sums[b] < INT_LIMIT
    && |PassedIn(s, b)| <= s.shared.sums[b] && |PassedIn(s, b)| <= BUCKET_LIMIT
  }

  /** The action counts a bucket up. */
  predicate Counts(s: State, a: Action, bucket: int) {
    a.Go? && a.id in s.calls && s.calls[a.id].at.Signed? && s.calls[a.id].send.bucket == bucket
  }

  function CountSteps(s: State, actions: seq<Action>, bucket: int): nat
    requires Allowed(s, actions)
    decreases |actions|
  {
    if actions == [] then 0
    else (if Counts(s, actions[0], bucket) then 1 else 0) + CountSteps(Step(s, actions[0]), actions[1..], bucket)
  }

  /** A call that passes has just counted its bucket up, within the limit. */
  lemma CountingStep(s: State, a: Action, b: nat)
    requires Bounded(s, b) && Enabled(s, a) && Counts(s, a, b) && s.shared.sums[b] + 1 < INT_LIMIT
    ensures Bounded(Step(s, a), b) && Step(s, a).shared.sums[b] == s.shared.sums[b] + 1
  {
    var t := Step(s, a);
    assert PassedIn(t, b) == if t.calls[a.id].at.Counted? then PassedIn(s, b) + {a.id} else PassedIn(s, b);
  }

  lemma OtherStep(s: State, a: Action, b: nat)
    requires Bounded(s, b) && Enabled(s, a) && !Counts(s, a, b)
    ensures Bounded(Step(s, a), b) && Step(s, a).shared.sums[b] == s.shared.sums[b]
  {
    assert PassedIn(Step(s, a), b) == PassedIn(s, b);
  }

  lemma {:induction false} RunBounded(s: State, actions: seq<Action>, b: nat)
    requires Allowed(s, actions) && Bounded(s, b) && s.shared.sums[b] + CountSteps(s, actions, b) < INT_LIMIT
    ensures Bounded(Run(s, actions), b)
    decreases |actions|
  {
    if actions != [] {
      if Counts(s, actions[0], b) {
        CountingStep(s, actions[0], b);
      } else {
        OtherStep(s, actions[0], b);
      }
      RunBounded(Step(s, actions[0]), actions[1..], b);
    }
  }

  /** In every interleaving, a bucket that is counted up fewer than 2^31 times stores at most 25 records. */
  lemma BucketsStayBounded(s: State, actions: seq<Action>, b: nat)
    requires Initial(s) && Allowed(s, actions) && b < CACHE_SIZE && CountSteps(s, actions, b) < INT_LIMIT
    ensures |StoredIn(Run(s, actions), b)| <= BUCKET_LIMIT
  {
    assert PassedIn(s, b) == {};
    RunBounded(s, actions, b);
    StoredIsPassed(Run(s, actions), b);
  }

  lemma StoredIsPassed(s: State, bucket: int)
    ensures |StoredIn(s, bucket)| <= |PassedIn(s, bucket)|
  {
    forall id | id in StoredIn(s, bucket) ensures id in PassedIn(s, bucket) {
    }
    var stored, passed := StoredIn(s, bucket), PassedIn(s, bucket);
    assert passed == stored + (passed - stored);
  }

  /** The 2^31st count makes the sum negative, and the bucket takes records again. */
  lemma TooManyCountsPass(sh: Shared, send: Send)
    requires Ready(sh, send) && sh.sums[send.bucket] == INT_LIMIT - 1
    ensures Advance(sh, send, Signed).1 == Counted
  {
  }
}
