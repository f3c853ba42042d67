/** The recovery-code attempt limits of `app/routers/idp.py`: ten attempts per
    account in any five minutes, five per login, whatever address they come from. */
module AttemptWindow {
  const WINDOW := 300.0
  const ACCOUNT_LIMIT := 10
  const REQUEST_LIMIT := 5

  type Stamps = map<string, seq<real>>

  /** The stamps still inside the window at `now`, in order. */
  function Recent(stamps: seq<real>, now: real): (r: seq<real>)
    ensures |r| <= |stamps|
  {
    if stamps == [] then []
    else
      Recent(stamps[..|stamps| - 1], now)
      + (if now - stamps[|stamps| - 1] < WINDOW then [stamps[|stamps| - 1]] else [])
  }

  function Get(attempts: Stamps, accountId: string): seq<real> {
    if accountId in attempts then attempts[accountId] else []
  }

  /** The pruned list with one more attempt on it. */
  function Push(attempts: Stamps, accountId: string, now: real): Stamps {
    attempts[accountId := Recent(Get(attempts, accountId), now) + [now]]
  }

  /** What the periodic purge leaves: in-window stamps, and no empty lists. */
  function Swept(attempts: Stamps, now: real): Stamps {
    map a | a in attempts && Recent(attempts[a], now) != [] :: Recent(attempts[a], now)
  }

  // ----- the whole history of attempts -----

  datatype Attempt = Attempt(accountId: string, requestId: string, at: real, passed: bool)

  function StampsOf(history: seq<Attempt>, accountId: string): seq<real> {
    if history == [] then []
    else
      var last := history[|history| - 1];
      StampsOf(history[..|history| - 1], accountId) + (if last.accountId == accountId then [last.at] else [])
  }

  function CountOf(history: seq<Attempt>, requestId: string): nat {
    if history == [] then 0
    else
      CountOf(history[..|history| - 1], requestId) + (if history[|history| - 1].requestId == requestId then 1 else 0)
  }

  /** The limits, judged on every attempt ever made, refused ones included. */
  predicate WithinLimits(history: seq<Attempt>)
    requires history != []
  {
    var last := history[|history| - 1];
    && |Recent(StampsOf(history, last.accountId), last.at)| <= ACCOUNT_LIMIT
    && CountOf(history, last.requestId) <= REQUEST_LIMIT
  }

  /** The attempts of the account less than 300 seconds before the last, and with it; and
      those of its login. */
  ghost function InWindow(history: seq<Attempt>, accountId: string, now: real): set<nat> {
    set i: nat | i < |history| && history[i].accountId == accountId && now - history[i].at < 300.0
  }

  ghost function OfLogin(history: seq<Attempt>, requestId: string): set<nat> {
    set i: nat | i < |history| && history[i].requestId == requestId
  }

  lemma InWindowAppend(history: seq<Attempt>, last: Attempt, accountId: string, now: real)
    ensures |InWindow(history + [last], accountId, now)|
         == |InWindow(history, accountId, now)|
           + (if last.accountId == accountId && now - last.at < 300.0 then 1 else 0)
  {
    if last.accountId == accountId && now - last.at < 300.0 {
      assert InWindow(history + [last], accountId, now) == InWindow(history, accountId, now) + {|history|};
    } else {
      assert InWindow(history + [last], accountId, now) == InWindow(history, accountId, now);
    }
  }

  lemma StampsAppend(history: seq<Attempt>, last: Attempt, accountId: string)
    ensures StampsOf(history + [last], accountId)
         == StampsOf(history, accountId) + (if last.accountId == accountId then [last.at] else [])
  {
    assert (history + [last])[..|history|] == history;
  }

  lemma {:induction false} WindowCounted(history: seq<Attempt>, accountId: string, now: real)
    ensures |Recent(StampsOf(history, accountId), now)| == |InWindow(history, accountId, now)|
  {
    if history == [] {
      assert InWindow(history, accountId, now) == {};
    } else {
      var before, last := history[..|history| - 1], history[|history| - 1];
      assert history == before + [last];
      WindowCounted(before, accountId, now);
      InWindowAppend(before, last, accountId, now);
      StampsAppend(before, last, accountId);
      var stamps := StampsOf(before, accountId);
      assert stamps + [] == stamps;
      RecentAppend(stamps, last.at, now);
    }
  }

  lemma OfLoginAppend(history: seq<Attempt>, last: Attempt, requestId: string)
    ensures |OfLogin(history + [last], requestId)|
         == |OfLogin(history, requestId)| + (if last.requestId == requestId then 1 else 0)
  {
    if last.requestId == requestId {
      assert OfLogin(history + [last], requestId) == OfLogin(history, requestId) + {|history|};
    } else {
      assert OfLogin(history + [last], requestId) == OfLogin(history, requestId);
    }
  }

  lemma {:induction false} LoginCounted(history: seq<Attempt>, requestId: string)
    ensures CountOf(history, requestId) == |OfLogin(history, requestId)|
  {
    if history == [] {
      assert OfLogin(history, requestId) == {};
    } else {
      var before, last := history[..|history| - 1], history[|history| - 1];
      assert history == before + [last];
      LoginCounted(before, requestId);
      OfLoginAppend(before, last, requestId);
    }
  }

  /** The limits in numbers: with it at most ten attempts of the account in five minutes,
      and at most five of the login. */
  lemma WithinExactlyWhen(history: seq<Attempt>)
    requires history != []
    ensures var last := history[|history| - 1];
            WithinLimits(history)
            <==> |InWindow(history, last.accountId, last.at)| <= 10 && |OfLogin(history, last.requestId)| <= 5
  {
    var last := history[|history| - 1];
    WindowCounted(history, last.accountId, last.at);
    LoginCounted(history, last.requestId);
  }

  /** An attempt passed exactly when it was within the limits when it was made. */
  ghost predicate Judged(history: seq<Attempt>) {
    forall i | 0 <= i < |history| :: JudgedAt(history, i)
  }

  ghost predicate JudgedAt(history: seq<Attempt>, i: nat)
    requires i < |history|
  {
    history[i].passed <==> WithinLimits(history[..i + 1])
  }

  /** Attempts of one account let past the limit in the window that starts at `start`. */
  function PassedIn(history: seq<Attempt>, accountId: string, start: real): nat {
    if history == [] then 0
    else
      var last := history[|history| - 1];
      PassedIn(history[..|history| - 1], accountId, start)
      + (if last.accountId == accountId && last.passed && start <= last.at < start + 300.0 then 1 else 0)
  }

  function PassedFor(history: seq<Attempt>, requestId: string): nat {
    if history == [] then 0
    else
      var last := history[|history| - 1];
      PassedFor(history[..|history| - 1], requestId) + (if last.requestId == requestId && last.passed then 1 else 0)
  }

  lemma {:induction false} PassedWithinRecent(history: seq<Attempt>, accountId: string, start: real, now: real)
    requires now < start + 300.0
    ensures PassedIn(history, accountId, start) <= |Recent(StampsOf(history, accountId), now)|
  {
    if history != [] {
      var before, last := history[..|history| - 1], history[|history| - 1];
      PassedWithinRecent(before, accountId, start, now);
      var stamps := StampsOf(before, accountId);
      assert (stamps + [last.at])[..|stamps|] == stamps;
      assert stamps + [] == stamps;
    }
  }

  /** No five minutes hold more than ten attempts that were let past the limit. */
  lemma {:induction false} AtMostTenInAnyWindow(history: seq<Attempt>, accountId: string, start: real)
    requires Judged(history)
    ensures PassedIn(history, accountId, start) <= 10
  {
    if history != [] {
      var before, last := history[..|history| - 1], history[|history| - 1];
      JudgedPrefix(history);
      AtMostTenInAnyWindow(before, accountId, start);
      assert JudgedAt(history, |before|);
      if last.accountId == accountId && last.passed && start <= last.at < start + 300.0 {
        assert history[..|history|] == history;
        PassedWithinRecent(history, accountId, start, last.at);
      }
    }
  }

  /** And no login gets more than five. */
  lemma {:induction false} AtMostFivePerLogin(history: seq<Attempt>, requestId: string)
    requires Judged(history)
    ensures PassedFor(history, requestId) <= 5
    ensures PassedFor(history, requestId) <= CountOf(history, requestId)
  {
    if history != [] {
      JudgedPrefix(history);
      AtMostFivePerLogin(history[..|history| - 1], requestId);
      assert JudgedAt(history, |history| - 1);
      assert history[..|history|] == history;
    }
  }

  lemma JudgedPrefix(history: seq<Attempt>)
    requires Judged(history) && history != []
    ensures Judged(history[..|history| - 1])
  {
    var before := history[..|history| - 1];
    forall i | 0 <= i < |before|
      ensures JudgedAt(before, i)
    {
      assert JudgedAt(history, i);
      assert before[..i + 1] == history[..i + 1];
    }
  }

  /** Pruning at an earlier moment loses nothing that a later moment would keep. */
  lemma {:induction false} RecentOfRecent(stamps: seq<real>, earlier: real, later: real)
    requires earlier <= later
    ensures Recent(Recent(stamps, earlier), later) == Recent(stamps, later)
  {
    if stamps != [] {
      var before, last := stamps[..|stamps| - 1], stamps[|stamps| - 1];
      RecentOfRecent(before, earlier, later);
      var kept := Recent(before, earlier);
      assert (kept + [last])[..|kept|] == kept;
      assert kept + [] == kept;
      assert Recent(before, later) + [] == Recent(before, later);
    }
  }

  lemma RecentAppend(stamps: seq<real>, last: real, now: real)
    ensures Recent(stamps + [last], now) == Recent(stamps, now) + (if now - last < WINDOW then [last] else [])
  {
    assert (stamps + [last])[..|stamps|] == stamps;
  }

  lemma JudgedExtends(past: seq<Attempt>, entry: Attempt)
    requires Judged(past) && (entry.passed <==> WithinLimits(past + [entry]))
    ensures Judged(past + [entry])
  {
    var history := past + [entry];
    forall i | 0 <= i < |history|
      ensures JudgedAt(history, i)
    {
      assert i < |past| ==> JudgedAt(past, i);
      assert history[..i + 1] == if i < |past| then past[..i + 1] else history;
    }
  }

  /** From `clock` on, the stored stamps answer every window question the way the full
      history would. */
  ghost predicate Faithful(attempts: Stamps, history: seq<Attempt>, clock: real) {
    forall a: string {:trigger AnswersFor(attempts, history, clock, a)} :: AnswersFor(attempts, history, clock, a)
  }

  ghost predicate AnswersFor(attempts: Stamps, history: seq<Attempt>, clock: real, accountId: string) {
    SameAnswers(Get(attempts, accountId), StampsOf(history, accountId), clock)
  }

  ghost predicate SameAnswers(kept: seq<real>, all: seq<real>, clock: real) {
    forall t: real {:trigger SameAt(kept, all, t)} | clock <= t :: SameAt(kept, all, t)
  }

  predicate SameAt(kept: seq<real>, all: seq<real>, t: real) {
    Recent(kept, t) == Recent(all, t)
  }

  lemma PushedAnswers(kept: seq<real>, all: seq<real>, clock: real, now: real)
    requires SameAnswers(kept, all, clock) && clock <= now
    ensures Recent(kept, now) + [now] == Recent(all + [now], now)
    ensures SameAnswers(Recent(kept, now) + [now], all + [now], now)
  {
    assert SameAt(kept, all, now);
    RecentAppend(all, now, now);
    forall t: real | now <= t
      ensures SameAt(Recent(kept, now) + [now], all + [now], t)
    {
      assert SameAt(kept, all, t);
      RecentAppend(Recent(kept, now), now, t);
      RecentOfRecent(kept, now, t);
      RecentAppend(all, now, t);
    }
  }

  lemma LaterAnswers(kept: seq<real>, all: seq<real>, clock: real, now: real)
    requires SameAnswers(kept, all, clock) && clock <= now
    ensures SameAnswers(kept, all, now)
  {
    forall t: real | now <= t
      ensures SameAt(kept, all, t)
    {
      assert SameAt(kept, all, t);
    }
  }

  lemma PrunedAnswers(kept: seq<real>, all: seq<real>, clock: real, now: real)
    requires SameAnswers(kept, all, clock) && clock <= now
    ensures SameAnswers(Recent(kept, now), all, now)
  {
    forall t: real | now <= t
      ensures SameAt(Recent(kept, now), all, t)
    {
      assert SameAt(kept, all, t);
      RecentOfRecent(kept, now, t);
    }
  }

  lemma PushFaithful(attempts: Stamps, past: seq<Attempt>, clock: real, entry: Attempt)
    requires Faithful(attempts, past, clock) && clock <= entry.at
    ensures Faithful(Push(attempts, entry.accountId, entry.at), past + [entry], entry.at)
    ensures Push(attempts, entry.accountId, entry.at)[entry.accountId]
         == Recent(StampsOf(past + [entry], entry.accountId), entry.at)
  {
    assert (past + [entry])[..|past|] == past;
    forall a: string
      ensures AnswersFor(Push(attempts, entry.accountId, entry.at), past + [entry], entry.at, a)
    {
      var kept, all := Get(attempts, a), StampsOf(past, a);
      assert AnswersFor(attempts, past, clock, a);
      LaterAnswers(kept, all, clock, entry.at);
      PushedAnswers(kept, all, clock, entry.at);
      assert all + [] == all;
    }
    assert AnswersFor(attempts, past, clock, entry.accountId);
    PushedAnswers(Get(attempts, entry.accountId), StampsOf(past, entry.accountId), clock, entry.at);
  }

  lemma SweptFaithful(attempts: Stamps, history: seq<Attempt>, clock: real, now: real)
    requires Faithful(attempts, history, clock) && clock <= now
    ensures Faithful(Swept(attempts, now), history, now)
  {
    forall a: string
      ensures AnswersFor(Swept(attempts, now), history, now, a)
    {
      assert AnswersFor(attempts, history, clock, a);
      LaterAnswers(Get(attempts, a), StampsOf(history, a), clock, now);
      PrunedAnswers(Get(attempts, a), StampsOf(history, a), clock, now);
    }
  }

  ghost predicate Counted(perRequest: map<string, nat>, history: seq<Attempt>) {
    forall r :: (if r in perRequest then perRequest[r] else 0) == CountOf(history, r)
  }

  lemma CountedExtends(perRequest: map<string, nat>, past: seq<Attempt>, entry: Attempt)
    requires Counted(perRequest, past)
    ensures Counted(perRequest[entry.requestId := CountOf(past, entry.requestId) + 1], past + [entry])
    ensures CountOf(past + [entry], entry.requestId) == CountOf(past, entry.requestId) + 1
  {
    assert (past + [entry])[..|past|] == past;
  }

  ghost predicate Sound(attempts: Stamps, perRequest: map<string, nat>, history: seq<Attempt>, clock: real) {
    Judged(history) && Faithful(attempts, history, clock) && Counted(perRequest, history)
  }

  lemma AttemptKeepsSound(attempts: Stamps, perRequest: map<string, nat>, past: seq<Attempt>, clock: real,
                          entry: Attempt, after: Stamps, counts: map<string, nat>, history: seq<Attempt>)
    requires Sound(attempts, perRequest, past, clock) && clock <= entry.at
    requires history == past + [entry] && after == Push(attempts, entry.accountId, entry.at)
    requires counts == perRequest[entry.requestId :=
                         if entry.requestId in perRequest then perRequest[entry.requestId] + 1 else 1]
    requires entry.passed <==> |after[entry.accountId]| <= ACCOUNT_LIMIT && counts[entry.requestId] <= REQUEST_LIMIT
    ensures Sound(after, counts, history, entry.at)
    ensures entry.passed <==> WithinLimits(history)
    ensures after[entry.accountId] == Recent(StampsOf(history, entry.accountId), entry.at)
  {
    PushFaithful(attempts, past, clock, entry);
    CountedExtends(perRequest, past, entry);
    JudgedExtends(past, entry);
  }

  class Limiter {
    var attempts: Stamps
    var perRequest: map<string, nat>
    ghost var history: seq<Attempt>
    ghost var clock: real

    ghost predicate Valid()
      reads this
    {
      Sound(attempts, perRequest, history, clock)
    }

    constructor ()
      ensures Valid() && history == []
    {
      attempts, perRequest, history, clock := map[], map[], [], 0.0;
    }

    /** The verdict is the one the limits give on the full history, although only the
        pruned stamps are kept. */
    method TooManyAttempts(accountId: string, requestId: string, now: real) returns (refused: bool)
      requires Valid() && clock <= now
      modifies this
      ensures Valid() && clock == now
      ensures history == old(history) + [Attempt(accountId, requestId, now, !refused)]
      ensures refused <==> |InWindow(history, accountId, now)| > 10 || |OfLogin(history, requestId)| > 5
      ensures attempts == Push(old(attempts), accountId, now)
      ensures attempts[accountId] == Recent(StampsOf(history, accountId), now)
    {
      var recent := Recent(Get(attempts, accountId), now);
      recent := recent + [now];
      attempts := attempts[accountId := recent];
      perRequest := perRequest[requestId := if requestId in perRequest then perRequest[requestId] + 1 else 1];
      refused := |recent| > ACCOUNT_LIMIT || perRequest[requestId] > REQUEST_LIMIT;
      ghost var entry := Attempt(accountId, requestId, now, !refused);
      ghost var longer := history + [entry];
      AttemptKeepsSound(old(attempts), old(perRequest), history, clock, entry, attempts, perRequest, longer);
      WithinExactlyWhen(longer);
      history, clock := longer, now;
    }

    /** The purge of stale stamps leaves the history, and so every later answer, alone. */
    method Purge(now: real)
      requires Valid() && clock <= now
      modifies this`attempts, this`clock
      ensures Valid() && clock == now
      ensures attempts == Swept(old(attempts), now)
    {
      var unseen := attempts.Keys;
      ghost var before := attempts;
      SweptFaithful(before, history, clock, now);
      while unseen != {}
        invariant unseen <= before.Keys
        invariant forall a | a in unseen :: a in attempts && attempts[a] == before[a]
        invariant forall a | a !in unseen :: a in attempts <==> a in before && Recent(before[a], now) != []
        invariant forall a | a !in unseen && a in attempts :: attempts[a] == Recent(before[a], now)
        decreases unseen
        modifies this`attempts
      {
        var accountId :| accountId in unseen;
        var recent := Recent(attempts[accountId], now);
        if recent != [] {
          attempts := attempts[accountId := recent];
        } else {
          attempts := attempts - {accountId};
        }
        unseen := unseen - {accountId};
      }
      assert attempts == Swept(before, now);
      clock := now;
    }
  }
}
