/**
 * The worker `send_messages`: one pass visits every message line with every
 * normalised token, checks the token, posts with it when valid, updates
 * and saves the checkpoint and pauses; passes repeat until the job's stop
 * flag is seen set.
 *
 * The network and the flag are not code the model can see, so they are an
 * `Oracle` indexed by the number of token visits the worker has made so far:
 * `tokenValid(k)` is what the validity check answers at visit k, `post(k)`
 * what the POST of visit k gives back, and `stopSet(k)` whether some poll of
 * the flag after k visits reads it set. No modelled part of `main.py` clears
 * a set `Event`, and the model takes a set flag to stay set, so every later
 * poll then reads it set as well and no further visit is made.
 */
module Dispatch {
  import opened Text
  import opened Checkpoints

  /** The floor of the pause after each token visit. */
  const WAIT_FLOOR := 10

  /** `max(delay, 10)`, the pause after each token visit. */
  function PerTokenWait(delay: int): (w: int)
    ensures w >= WAIT_FLOOR && w >= delay
    ensures w == delay || w == WAIT_FLOOR
  {
    if delay > WAIT_FLOOR then delay else WAIT_FLOOR
  }

  /**
   * The smallest whole number of seconds `time.sleep` refuses: CPython turns
   * the duration into a signed 64-bit count of nanoseconds and raises
   * `OverflowError` when it does not fit.
   */
  const SLEEP_LIMIT := 9223372037

  /** The pause the outer `except` takes before the `while` polls again. */
  const RETRY_WAIT := 10

  /** Whether the pause after a visit raises instead of sleeping. */
  predicate SleepFails(delay: int) {
    PerTokenWait(delay) >= SLEEP_LIMIT
  }

  /**
   * The time the worker waits after a visit: `max(delay, 10)`, or, when that
   * pause raises, the 10 seconds of the outer `except`.
   */
  function Pause(delay: int): int {
    if SleepFails(delay) then RETRY_WAIT else PerTokenWait(delay)
  }

  datatype Oracle = Oracle(stopSet: nat -> bool, tokenValid: nat -> bool, post: nat -> PostOutcome)

  /** One token visit: the composed message and the token it is posted with. */
  datatype Visit = Visit(message: string, token: Token)

  function Row(message: string, tokens: seq<Token>): seq<Visit> {
    seq(|tokens|, k requires 0 <= k < |tokens| => Visit(message, tokens[k]))
  }

  /** The rows of one pass in order: for each message line, the composed message with every token. */
  function PassRows(prefix: string, messages: seq<string>, tokens: seq<Token>): seq<seq<Visit>> {
    seq(|messages|, i requires 0 <= i < |messages| => Row(ComposeMessage(prefix, messages[i]), tokens))
  }

  lemma RowAt(message: string, tokens: seq<Token>)
    ensures |Row(message, tokens)| == |tokens|
    ensures forall k :: 0 <= k < |tokens| ==> Row(message, tokens)[k] == Visit(message, tokens[k])
  {
  }

  lemma PassRowsAt(prefix: string, messages: seq<string>, tokens: seq<Token>)
    ensures |PassRows(prefix, messages, tokens)| == |messages|
    ensures forall i :: 0 <= i < |messages| ==> PassRows(prefix, messages, tokens)[i] == Row(ComposeMessage(prefix, messages[i]), tokens)
  {
  }

  /** The rows one after the other. */
  function Concat(rows: seq<seq<Visit>>): seq<Visit>
    decreases |rows|
  {
    if rows == [] then [] else Concat(rows[..|rows| - 1]) + rows[|rows| - 1]
  }

  /** `n` passes over the same visits, the outer `while` of the worker. */
  function Repeat(vs: seq<Visit>, n: nat): (r: seq<Visit>)
    ensures |r| == n * |vs|
  {
    if n == 0 then [] else Repeat(vs, n - 1) + vs
  }

  /** The visits one pass makes when no poll stops it: every message line with every token, in order. */
  function PassVisits(prefix: string, messages: seq<string>, accessTokens: seq<string>): seq<Visit> {
    Concat(PassRows(prefix, messages, NormaliseTokens(accessTokens)))
  }

  /**
   * The visits one pass makes when no poll stops it. When the pause raises,
   * the pass is abandoned right after its first visit and the outer `while`
   * starts the next one from the first message line.
   */
  function PassPlan(prefix: string, messages: seq<string>, accessTokens: seq<string>, delay: int): seq<Visit> {
    var vs := PassVisits(prefix, messages, accessTokens);
    if SleepFails(delay) && vs != [] then vs[..1] else vs
  }

  // ---------------------------------------------------------------------
  // What the visits of a worker leave behind. Visit k of `vs` is visit
  // number k of its worker.
  // ---------------------------------------------------------------------

  /** The checkpoint after the visits `vs`, starting from `cp`. */
  function Replay(cp: Checkpoint, vs: seq<Visit>, o: Oracle): Checkpoint
    decreases |vs|
  {
    if vs == [] then cp
    else
      var k := |vs| - 1;
      Step(Replay(cp, vs[..k], o), vs[k].token, o.tokenValid(k), o.post(k))
  }

  /** The checkpoint saved after each of the visits `vs`: entry k is the record after visit k. */
  function Snapshots(cp: Checkpoint, vs: seq<Visit>, o: Oracle): (r: seq<Checkpoint>)
    ensures |r| == |vs|
    decreases |vs|
  {
    if vs == [] then [] else Snapshots(cp, vs[..|vs| - 1], o) + [Replay(cp, vs, o)]
  }

  /** The POSTs the visits `vs` issue: one for each visit whose token was found valid. */
  function Posts(vs: seq<Visit>, o: Oracle): seq<Visit>
    decreases |vs|
  {
    if vs == [] then []
    else
      var k := |vs| - 1;
      var init := Posts(vs[..k], o);
      if o.tokenValid(k) then init + [vs[k]] else init
  }

  /** The pauses after `n` visits. */
  function Pauses(n: nat, delay: int): (r: seq<int>)
    ensures |r| == n
    ensures forall w :: w in r ==> w == Pause(delay)
  {
    if n == 0 then [] else Pauses(n - 1, delay) + [Pause(delay)]
  }

  /**
   * What the worker has produced: its `cookies_data` record, every record it
   * saved, the POSTs it issued and the pauses it took.
   */
  datatype Worker = Worker(record: Checkpoint, saved: seq<Checkpoint>, posts: seq<Visit>, waits: seq<int>)

  /** The worker after making the visits `vs` from a fresh record. */
  function After(vs: seq<Visit>, o: Oracle, delay: int): (w: Worker)
    ensures |w.saved| == |vs|
  {
    Worker(Replay(Initial, vs, o), Snapshots(Initial, vs, o), Posts(vs, o), Pauses(|vs|, delay))
  }

  /** The worker once the outer `except` has taken its pause after a pass that raised. */
  function Resumed(w: Worker): Worker {
    w.(waits := w.waits + [RETRY_WAIT])
  }

  /**
   * One more visit: the record takes one Step and is saved, the token is
   * posted with when found valid, and the worker pauses.
   */
  lemma AfterSnoc(vs: seq<Visit>, v: Visit, o: Oracle, delay: int)
    ensures var w := After(vs, o, delay);
      var next := Step(w.record, v.token, o.tokenValid(|vs|), o.post(|vs|));
      After(vs + [v], o, delay)
        == Worker(next, w.saved + [next], if o.tokenValid(|vs|) then w.posts + [v] else w.posts, w.waits + [Pause(delay)])
  {
    assert (vs + [v])[..|vs|] == vs;
  }

  /** Visit j of a row, made after the visits `prior` and the first j of the row. */
  lemma NextVisit(prior: seq<Visit>, row: seq<Visit>, j: nat, o: Oracle, delay: int)
    requires j < |row|
    ensures var vs := prior + row[..j];
      var w := After(vs, o, delay);
      var next := Step(w.record, row[j].token, o.tokenValid(|vs|), o.post(|vs|));
      After(prior + row[..j + 1], o, delay)
        == Worker(next, w.saved + [next], if o.tokenValid(|vs|) then w.posts + [row[j]] else w.posts, w.waits + [Pause(delay)])
  {
    assert prior + row[..j + 1] == (prior + row[..j]) + [row[j]];
    AfterSnoc(prior + row[..j], row[j], o, delay);
  }

  /** No poll in [lo, hi) reads the flag set. */
  predicate PollsUnset(o: Oracle, lo: nat, hi: nat) {
    forall k :: lo <= k < hi ==> !o.stopSet(k)
  }

  lemma PollsUnsetExtend(o: Oracle, hi: nat)
    requires PollsUnset(o, 0, hi) && !o.stopSet(hi)
    ensures PollsUnset(o, 0, hi + 1)
  {
  }

  /**
   * Of `planned` visits, the first `made` are made: every poll before them
   * reads the flag unset, and the run falls short only at a poll that reads
   * it set.
   */
  predicate StopsAt(o: Oracle, planned: nat, made: nat) {
    && made <= planned
    && PollsUnset(o, 0, made)
    && (made < planned ==> o.stopSet(made))
  }

  /** The number of visits made is determined by the flag. */
  lemma StopsAtUnique(o: Oracle, planned: nat, a: nat, b: nat)
    requires StopsAt(o, planned, a) && StopsAt(o, planned, b)
    ensures a == b
  {
  }

  /** A flag never set lets every planned visit happen. */
  lemma NeverStoppedMakesAll(o: Oracle, planned: nat)
    requires PollsUnset(o, 0, planned)
    ensures StopsAt(o, planned, planned)
  {
  }

  /** A flag set before the first poll lets none happen. */
  lemma StoppedAtOnceMakesNone(o: Oracle, planned: nat)
    requires o.stopSet(0)
    ensures StopsAt(o, planned, 0)
  {
  }

  // ---------------------------------------------------------------------
  // Prefixes of the planned visits.
  // ---------------------------------------------------------------------

  lemma PrefixExtend(x: seq<Visit>, a: seq<Visit>, b: seq<Visit>)
    requires a <= b
    ensures x + a <= x + b
  {
    assert (x + b)[..|x + a|] == x + b[..|a|];
    assert b[..|a|] == a;
  }

  /** The rows before row i are a prefix of all rows. */
  lemma {:induction false} ConcatPrefix(rows: seq<seq<Visit>>, i: nat)
    requires i <= |rows|
    ensures Concat(rows[..i]) <= Concat(rows)
    decreases |rows|
  {
    if i < |rows| {
      var init := rows[..|rows| - 1];
      assert init[..i] == rows[..i];
      ConcatPrefix(init, i);
    } else {
      assert rows[..i] == rows;
    }
  }

  /**
   * After `n` visits of row i, the visits made are still a prefix of all
   * rows, and they are rows 0 to i in full when the row was finished.
   */
  lemma MessageDone(prior: seq<Visit>, rows: seq<seq<Visit>>, i: nat, n: nat)
    requires i < |rows| && n <= |rows[i]|
    ensures Concat(rows[..i]) + rows[i][..n] <= Concat(rows)
    ensures prior + (Concat(rows[..i]) + rows[i][..n]) == (prior + Concat(rows[..i])) + rows[i][..n]
    ensures n == |rows[i]| ==> Concat(rows[..i]) + rows[i][..n] == Concat(rows[..i + 1])
  {
    assert rows[..i + 1][..i] == rows[..i];
    assert rows[i][..|rows[i]|] == rows[i];
    PrefixExtend(Concat(rows[..i]), rows[i][..n], rows[i]);
    ConcatPrefix(rows, i + 1);
  }

  /** The state after `n` visits of row i, in terms of the visits of the pass so far. */
  lemma MessageStep(prior: seq<Visit>, rows: seq<seq<Visit>>, i: nat, n: nat, o: Oracle, delay: int)
    requires i < |rows| && n <= |rows[i]|
    ensures var made := Concat(rows[..i]) + rows[i][..n];
      && made <= Concat(rows)
      && prior + Concat(rows[..i]) + rows[i][..n] == prior + made
      && (n == |rows[i]| ==> made == Concat(rows[..i + 1]))
      && (n == 0 ==> made == Concat(rows[..i]))
  {
    MessageDone(prior, rows, i, n);
    assert rows[i][..0] == [];
  }

  lemma {:induction false} RepeatPrefix(vs: seq<Visit>, m: nat, n: nat)
    requires m <= n
    ensures Repeat(vs, m) <= Repeat(vs, n)
    decreases n
  {
    if m < n {
      RepeatPrefix(vs, m, n - 1);
    }
  }

  /** Some passes and the start of one more are a prefix of all passes. */
  lemma RepeatPrefixInPass(vs: seq<Visit>, p: nat, n: nat, part: seq<Visit>)
    requires p < n && part <= vs
    ensures Repeat(vs, p) + part <= Repeat(vs, n)
  {
    PrefixExtend(Repeat(vs, p), part, vs);
    RepeatPrefix(vs, p + 1, n);
  }

  // ---------------------------------------------------------------------
  // The worker's loops.
  // ---------------------------------------------------------------------

  /**
   * The `for token` loop for one message line, after the visits `prior`:
   * polls the flag before each token and stops at the first poll that reads
   * it set; otherwise checks the token, posts with it when valid, saves the
   * record and pauses. `n` is the number of tokens visited. When the pause
   * raises, the loop ends after that first visit with `raised`, still
   * owing the outer `except`'s pause.
   */
  method RunMessage(w0: Worker, ghost prior: seq<Visit>, fullMessage: string, tokens: seq<Token>, delay: int, o: Oracle)
    returns (w: Worker, raised: bool, ghost n: nat)
    requires w0 == After(prior, o, delay) && PollsUnset(o, 0, |prior|)
    ensures n <= |tokens|
    ensures raised <==> SleepFails(delay) && n > 0
    ensures raised ==> n == 1
    ensures !raised ==> w == After(prior + Row(fullMessage, tokens)[..n], o, delay)
    ensures raised ==> Resumed(w) == After(prior + Row(fullMessage, tokens)[..n], o, delay)
    ensures |w.saved| == |prior| + n
    ensures PollsUnset(o, 0, |w.saved|)
    ensures n < |tokens| && !raised ==> o.stopSet(|w.saved|)
  {
    ghost var row := Row(fullMessage, tokens);
    RowAt(fullMessage, tokens);
    w := w0;
    raised := false;
    var j := 0;
    assert prior + row[..0] == prior;
    while j < |tokens|
      invariant 0 <= j <= |tokens|
      invariant SleepFails(delay) ==> j == 0
      invariant w == After(prior + row[..j], o, delay)
      invariant |w.saved| == |prior| + j
      invariant PollsUnset(o, 0, |w.saved|)
    {
      var done := |w.saved|;
      if o.stopSet(done) {
        break;
      }
      var token := tokens[j];
      var record := w.record;
      var posts := w.posts;
      var tokenValid := o.tokenValid(done);
      if tokenValid {
        record := record.(validTokens := AddToken(record.validTokens, token));
        posts := posts + [Visit(fullMessage, token)];
        if Delivered(o.post(done)) {
          record := record.(totalMessagesSent := record.totalMessagesSent + 1);
        }
      } else {
        record := record.(invalidTokens := AddToken(record.invalidTokens, token));
      }
      assert record == Step(w.record, token, tokenValid, o.post(done));
      NextVisit(prior, row, j, o, delay);
      PollsUnsetExtend(o, done);
      j := j + 1;
      if SleepFails(delay) {
        // the record is saved, then `time.sleep` raises
        w := Worker(record, w.saved + [record], posts, w.waits);
        raised := true;
        break;
      }
      w := Worker(record, w.saved + [record], posts, w.waits + [PerTokenWait(delay)]);
    }
    n := j;
  }

  /**
   * One pass of the `for message` loop after the visits `prior`: polls the
   * flag before each message and after its tokens, and ends the pass at the
   * first poll that reads it set, or with `raised` when the pause raised.
   * `made` are the visits of the pass.
   */
  method RunPass(w0: Worker, ghost prior: seq<Visit>, prefix: string, messages: seq<string>, accessTokens: seq<string>, delay: int, o: Oracle)
    returns (w: Worker, raised: bool, ghost made: seq<Visit>)
    requires w0 == After(prior, o, delay) && PollsUnset(o, 0, |prior|)
    ensures made <= PassPlan(prefix, messages, accessTokens, delay)
    ensures raised ==> made == PassPlan(prefix, messages, accessTokens, delay)
    ensures !raised ==> w == After(prior + made, o, delay)
    ensures raised ==> Resumed(w) == After(prior + made, o, delay)
    ensures |w.saved| == |prior| + |made|
    ensures PollsUnset(o, 0, |w.saved|)
    ensures made != PassPlan(prefix, messages, accessTokens, delay) ==> o.stopSet(|w.saved|)
  {
    ghost var rows := PassRows(prefix, messages, NormaliseTokens(accessTokens));
    PassRowsAt(prefix, messages, NormaliseTokens(accessTokens));
    w := w0;
    raised := false;
    made := [];
    assert prior + made == prior;
    var i := 0;
    while i < |messages|
      invariant 0 <= i <= |messages|
      invariant made == Concat(rows[..i])
      invariant !raised
      invariant SleepFails(delay) ==> made == []
      invariant w == After(prior + made, o, delay)
      invariant |w.saved| == |prior| + |made|
      invariant PollsUnset(o, 0, |w.saved|)
    {
      if o.stopSet(|w.saved|) {
        ConcatPrefix(rows, i);
        break;
      }
      var fullMessage := ComposeMessage(prefix, messages[i]);
      var tokens := NormaliseTokens(accessTokens);
      ghost var n;
      w, raised, n := RunMessage(w, prior + made, fullMessage, tokens, delay, o);
      assert rows[i] == Row(fullMessage, tokens);
      RowAt(fullMessage, tokens);
      MessageStep(prior, rows, i, n, o, delay);
      made := made + rows[i][..n];
      if raised || o.stopSet(|w.saved|) {
        break;
      }
      assert n == |rows[i]|;
      i := i + 1;
    }
    if i == |messages| {
      assert rows[..i] == rows;
    }
    PlanPrefix(made, prefix, messages, accessTokens, delay);
  }

  /**
   * A prefix of a pass, of at most one visit when the pause raises, is a
   * prefix of the pass plan, and all of it once the pass or the first visit
   * is done.
   */
  lemma PlanPrefix(made: seq<Visit>, prefix: string, messages: seq<string>, accessTokens: seq<string>, delay: int)
    requires made <= PassVisits(prefix, messages, accessTokens)
    requires SleepFails(delay) ==> |made| <= 1
    ensures made <= PassPlan(prefix, messages, accessTokens, delay)
    ensures made == PassVisits(prefix, messages, accessTokens) || (SleepFails(delay) && |made| == 1) ==>
      made == PassPlan(prefix, messages, accessTokens, delay)
  {
  }

  /**
   * The worker from a fresh record: up to `passes` passes of the outer
   * `while`, each started only while the flag reads unset, with the outer
   * `except`'s pause after a pass that raised. Of the visits of those passes
   * it makes exactly those before the first poll that reads the flag set,
   * and it ends in the state those visits leave behind.
   */
  method SendMessages(accessTokens: seq<string>, prefix: string, delay: int, messages: seq<string>, o: Oracle, passes: nat)
    returns (w: Worker)
    ensures var planned := Repeat(PassPlan(prefix, messages, accessTokens, delay), passes);
      && StopsAt(o, |planned|, |w.saved|)
      && w == After(planned[..|w.saved|], o, delay)
  {
    ghost var pass := PassPlan(prefix, messages, accessTokens, delay);
    ghost var planned := Repeat(pass, passes);
    w := Worker(Initial, [], [], []);
    ghost var made: seq<Visit> := [];
    var p := 0;
    while p < passes && !o.stopSet(|w.saved|)
      invariant p <= passes
      invariant made <= planned
      invariant w == After(made, o, delay)
      invariant PollsUnset(o, 0, |made|)
      invariant !o.stopSet(|made|) ==> made == Repeat(pass, p)
    {
      ghost var part;
      var raised;
      w, raised, part := RunPass(w, made, prefix, messages, accessTokens, delay, o);
      if raised {
        w := Resumed(w);
      }
      RepeatPrefixInPass(pass, p, passes, part);
      made := made + part;
      p := p + 1;
    }
    assert planned[..|made|] == made;
  }

  /**
   * An ordinary delay gives the full pass. A delay whose pause raises turns
   * every pass into the first visit alone: the first message line with the
   * first token, again and again.
   */
  lemma PassPlanCases(prefix: string, messages: seq<string>, accessTokens: seq<string>, delay: int)
    ensures !SleepFails(delay) ==> PassPlan(prefix, messages, accessTokens, delay) == PassVisits(prefix, messages, accessTokens)
    ensures SleepFails(delay) && messages != [] && NormaliseTokens(accessTokens) != [] ==>
      PassPlan(prefix, messages, accessTokens, delay) == [Visit(ComposeMessage(prefix, messages[0]), NormaliseTokens(accessTokens)[0])]
  {
    if messages != [] && NormaliseTokens(accessTokens) != [] {
      PassVisitsAt(prefix, messages, accessTokens, 0, 0);
    }
  }

  /** A pause of `SLEEP_LIMIT` seconds or more raises; any shorter one sleeps. */
  lemma SleepFailsExactly(delay: int)
    ensures SleepFails(delay) <==> delay >= SLEEP_LIMIT
    ensures Pause(delay) == (if delay >= SLEEP_LIMIT then RETRY_WAIT else PerTokenWait(delay))
  {
  }

  // ---------------------------------------------------------------------
  // Properties of a run of visits.
  // ---------------------------------------------------------------------

  /** Entry k of the saved records is the record after the first k + 1 visits. */
  lemma {:induction false} SnapshotsAt(cp: Checkpoint, vs: seq<Visit>, o: Oracle, k: nat)
    requires k < |vs|
    ensures Snapshots(cp, vs, o)[k] == Replay(cp, vs[..k + 1], o)
    decreases |vs|
  {
    var last := |vs| - 1;
    if k < last {
      SnapshotsAt(cp, vs[..last], o, k);
      assert vs[..last][..k + 1] == vs[..k + 1];
    } else {
      assert vs[..k + 1] == vs;
    }
  }

  /** Along a run both token lists only gain members and the counter never goes down. */
  lemma {:induction false} ReplayGrows(cp: Checkpoint, vs: seq<Visit>, o: Oracle, i: nat, j: nat)
    requires i <= j <= |vs|
    ensures Grows(Replay(cp, vs[..i], o), Replay(cp, vs[..j], o))
    decreases j
  {
    if i < j {
      ReplayGrows(cp, vs, o, i, j - 1);
      assert vs[..j][..j - 1] == vs[..j - 1];
      StepGrows(Replay(cp, vs[..j - 1], o), vs[j - 1].token, o.tokenValid(j - 1), o.post(j - 1));
    }
  }

  /** Every saved checkpoint extends the one the pass started from and every earlier saved one. */
  lemma SnapshotsGrow(cp: Checkpoint, vs: seq<Visit>, o: Oracle, i: nat, j: nat)
    requires i <= j < |vs|
    ensures Grows(cp, Snapshots(cp, vs, o)[i])
    ensures Grows(Snapshots(cp, vs, o)[i], Snapshots(cp, vs, o)[j])
  {
    SnapshotsAt(cp, vs, o, i);
    SnapshotsAt(cp, vs, o, j);
    ReplayGrows(cp, vs, o, 0, i + 1);
    assert vs[..0] == [];
    ReplayGrows(cp, vs, o, i + 1, j + 1);
  }

  /** The number of visits in `vs` whose POST answered 200. */
  function Successes(vs: seq<Visit>, o: Oracle): nat
    decreases |vs|
  {
    if vs == [] then 0
    else
      var k := |vs| - 1;
      Successes(vs[..k], o) + (if o.tokenValid(k) && Delivered(o.post(k)) then 1 else 0)
  }

  /** The counter grows by exactly the number of POSTs that answered 200. */
  lemma {:induction false} ReplaySent(cp: Checkpoint, vs: seq<Visit>, o: Oracle)
    ensures Replay(cp, vs, o).totalMessagesSent == cp.totalMessagesSent + Successes(vs, o)
    decreases |vs|
  {
    if vs != [] {
      ReplaySent(cp, vs[..|vs| - 1], o);
    }
  }

  /** When no POST ever answers 200 the counter stays where it was. */
  lemma NothingDeliveredNothingCounted(cp: Checkpoint, vs: seq<Visit>, o: Oracle)
    requires forall k :: 0 <= k < |vs| ==> !Delivered(o.post(k))
    ensures Replay(cp, vs, o).totalMessagesSent == cp.totalMessagesSent
  {
    ReplaySent(cp, vs, o);
    NoSuccesses(vs, o);
  }

  lemma {:induction false} NoSuccesses(vs: seq<Visit>, o: Oracle)
    requires forall k :: 0 <= k < |vs| ==> !Delivered(o.post(k))
    ensures Successes(vs, o) == 0
    decreases |vs|
  {
    if vs != [] {
      NoSuccesses(vs[..|vs| - 1], o);
    }
  }

  /** Both token lists stay free of duplicates along a run, as a `list(set(...))` is. */
  lemma {:induction false} ReplayKeepsDistinct(cp: Checkpoint, vs: seq<Visit>, o: Oracle)
    requires NoDuplicates(cp.validTokens) && NoDuplicates(cp.invalidTokens)
    ensures NoDuplicates(Replay(cp, vs, o).validTokens) && NoDuplicates(Replay(cp, vs, o).invalidTokens)
    decreases |vs|
  {
    if vs != [] {
      var k := |vs| - 1;
      ReplayKeepsDistinct(cp, vs[..k], o);
      StepEffect(Replay(cp, vs[..k], o), vs[k].token, o.tokenValid(k), o.post(k));
    }
  }

  /** A token that every check finds valid never enters the invalid list. */
  lemma {:induction false} AlwaysValidNeverInvalid(cp: Checkpoint, vs: seq<Visit>, o: Oracle, t: Token)
    requires t !in cp.invalidTokens
    requires forall k :: 0 <= k < |vs| && vs[k].token == t ==> o.tokenValid(k)
    ensures t !in Replay(cp, vs, o).invalidTokens
    decreases |vs|
  {
    if vs != [] {
      var k := |vs| - 1;
      AlwaysValidNeverInvalid(cp, vs[..k], o, t);
    }
  }

  /**
   * The valid and invalid lists are not kept disjoint: a token found valid
   * at one visit and invalid at a later one is in both.
   */
  lemma ValidAndInvalidMayOverlap(cp: Checkpoint, v: Visit, o: Oracle)
    requires o.tokenValid(0) && !o.tokenValid(1)
    ensures v.token in Replay(cp, [v, v], o).validTokens
    ensures v.token in Replay(cp, [v, v], o).invalidTokens
  {
    assert [v, v][..1] == [v];
    assert [v][..0] == [];
  }


  /** Two oracles that agree on the checks and POSTs of the visits `vs` give the same worker state. */
  lemma {:induction false} AfterUsesOnlyMadeVisits(vs: seq<Visit>, o1: Oracle, o2: Oracle, delay: int)
    requires forall k :: 0 <= k < |vs| ==> o1.tokenValid(k) == o2.tokenValid(k) && o1.post(k) == o2.post(k)
    ensures After(vs, o1, delay) == After(vs, o2, delay)
    decreases |vs|
  {
    if vs != [] {
      var init := vs[..|vs| - 1];
      AfterUsesOnlyMadeVisits(init, o1, o2, delay);
      AfterSnoc(init, vs[|vs| - 1], o1, delay);
      AfterSnoc(init, vs[|vs| - 1], o2, delay);
      assert init + [vs[|vs| - 1]] == vs;
    }
  }

  /** No visit is made at or after a poll that reads the flag set. */
  lemma NoVisitAfterStop(o: Oracle, planned: nat, made: nat, k: nat)
    requires StopsAt(o, planned, made) && o.stopSet(k)
    ensures made <= k
  {
  }

  /** The indices below `n` whose validity check answers valid, in increasing order. */
  function ValidIndices(n: nat, o: Oracle): (ks: seq<nat>)
    ensures forall m :: 0 <= m < |ks| ==> ks[m] < n && o.tokenValid(ks[m])
    ensures forall k :: 0 <= k < n && o.tokenValid(k) ==> k in ks
    ensures forall a, b :: 0 <= a < b < |ks| ==> ks[a] < ks[b]
  {
    if n == 0 then []
    else
      var init := ValidIndices(n - 1, o);
      if o.tokenValid(n - 1) then init + [n - 1] else init
  }

  /**
   * The POSTs are exactly the visits whose token was found valid, in the
   * order they were made: POST m is visit `ValidIndices(|vs|, o)[m]`.
   */
  lemma {:induction false} PostsAreValidVisits(vs: seq<Visit>, o: Oracle)
    ensures var ks := ValidIndices(|vs|, o);
      && |Posts(vs, o)| == |ks|
      && forall m :: 0 <= m < |ks| ==> Posts(vs, o)[m] == vs[ks[m]]
    decreases |vs|
  {
    if vs != [] {
      var n := |vs| - 1;
      PostsAreValidVisits(vs[..n], o);
      var ks := ValidIndices(n, o);
      forall m | 0 <= m < |ks|
        ensures Posts(vs, o)[m] == vs[ks[m]]
      {
        assert vs[..n][ks[m]] == vs[ks[m]];
      }
    }
  }

  lemma MulSucc(m: nat, width: nat)
    ensures (m + 1) * width == m * width + width
  {
  }

  /** Rows of equal width laid end to end make `|rows| * width` visits. */
  lemma {:induction false} ConcatLength(rows: seq<seq<Visit>>, width: nat)
    requires forall r :: r in rows ==> |r| == width
    ensures |Concat(rows)| == |rows| * width
    decreases |rows|
  {
    if rows != [] {
      var m := |rows| - 1;
      assert forall r :: r in rows[..m] ==> r in rows;
      ConcatLength(rows[..m], width);
      assert rows[m] in rows;
      assert |Concat(rows)| == |Concat(rows[..m])| + |rows[m]|;
      MulSucc(m, width);
    }
  }

  /** Rows of equal width laid end to end: entry k of row i sits at i * width + k. */
  lemma {:induction false} ConcatAt(rows: seq<seq<Visit>>, width: nat, i: nat, k: nat)
    requires forall r :: r in rows ==> |r| == width
    requires i < |rows| && k < width
    ensures i * width + k < |Concat(rows)| && Concat(rows)[i * width + k] == rows[i][k]
    decreases |rows|
  {
    var m := |rows| - 1;
    var init := rows[..m];
    assert forall r :: r in init ==> r in rows;
    assert Concat(rows) == Concat(init) + rows[m];
    ConcatLength(init, width);
    if i < m {
      ConcatAt(init, width, i, k);
      assert init[i] == rows[i];
    } else {
      assert i == m;
    }
  }

  /**
   * One pass posts message line by message line, each with every
   * normalised token in order: its visit i * |tokens| + k is message line i,
   * composed, with token k.
   */
  lemma PassVisitsAt(prefix: string, messages: seq<string>, accessTokens: seq<string>, i: nat, k: nat)
    requires i < |messages| && k < |NormaliseTokens(accessTokens)|
    ensures |PassVisits(prefix, messages, accessTokens)| == |messages| * |NormaliseTokens(accessTokens)|
    ensures var tokens := NormaliseTokens(accessTokens);
      && i * |tokens| + k < |PassVisits(prefix, messages, accessTokens)|
      && PassVisits(prefix, messages, accessTokens)[i * |tokens| + k] == Visit(ComposeMessage(prefix, messages[i]), tokens[k])
  {
    var tokens := NormaliseTokens(accessTokens);
    var rows := PassRows(prefix, messages, tokens);
    PassRowsAt(prefix, messages, tokens);
    forall r | r in rows
      ensures |r| == |tokens|
    {
      var m :| 0 <= m < |rows| && rows[m] == r;
      RowAt(ComposeMessage(prefix, messages[m]), tokens);
    }
    RowAt(ComposeMessage(prefix, messages[i]), tokens);
    ConcatLength(rows, |tokens|);
    ConcatAt(rows, |tokens|, i, k);
  }
}
