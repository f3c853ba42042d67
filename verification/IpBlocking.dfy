/** `app/ip_blocking.py`: the consecutive-failure counter that blocks one
    (account, address) pair, and what it means over a whole history. */
module IpBlocking {
  import opened Options

  /** One row of `ip_block_state`, without `unblocked_by`. */
  datatype Row = Row(failures: nat, blockedAt: Option<real>, unblockedAt: Option<real>)
  datatype Op = Failure(at: real) | Success | Unblock(at: real)
  type Pair = (string, string)
  type Table = map<Pair, Row>

  function Get(rows: Table, pair: Pair): Option<Row> {
    if pair in rows then Some(rows[pair]) else None
  }

  predicate RowBlocks(row: Option<Row>) {
    row.Some? && row.value.blockedAt.Some? && row.value.unblockedAt.None?
  }

  /** Whether a failure recorded on top of `row` crosses the threshold. */
  predicate Crosses(row: Option<Row>, threshold: int) {
    match row
    case None => 1 >= threshold
    case Some(r) => r.failures + 1 >= threshold && r.blockedAt.None?
  }

  /** The row after one operation; `None` is a pair never seen failing. */
  function Step(row: Option<Row>, op: Op, threshold: int): Option<Row> {
    match op
    case Failure(at) =>
      var base := if row.Some? then row.value else Row(0, None, None);
      var counted := base.(failures := base.failures + 1);
      Some(if Crosses(row, threshold) then counted.(blockedAt := Some(at), unblockedAt := None) else counted)
    case Success => if row.None? then None else Some(Row(0, None, None))
    case Unblock(at) => if row.None? then None else Some(row.value.(failures := 0, unblockedAt := Some(at)))
  }

  /** The table after one operation on one pair. */
  function Update(rows: Table, pair: Pair, op: Op, threshold: int): Table {
    match Step(Get(rows, pair), op, threshold)
    case Some(row) => rows[pair := row]
    case None => rows
  }

  lemma UpdateGets(rows: Table, pair: Pair, op: Op, threshold: int, other: Pair)
    ensures Get(Update(rows, pair, op, threshold), other)
         == if other == pair then Step(Get(rows, pair), op, threshold) else Get(rows, other)
  {
  }

  function Replay(ops: seq<Op>, threshold: int): Option<Row> {
    if ops == [] then None else Step(Replay(ops[..|ops| - 1], threshold), ops[|ops| - 1], threshold)
  }

  lemma ReplayAppend(ops: seq<Op>, op: Op, threshold: int)
    ensures Replay(ops + [op], threshold) == Step(Replay(ops, threshold), op, threshold)
  {
    assert (ops + [op])[..|ops|] == ops;
  }

  // ----- what the counter means -----

  /** The operations after the last success. */
  function SinceSuccess(ops: seq<Op>): (tail: seq<Op>)
    ensures forall i | 0 <= i < |tail| :: !tail[i].Success?
  {
    if ops == [] || ops[|ops| - 1].Success? then [] else SinceSuccess(ops[..|ops| - 1]) + [ops[|ops| - 1]]
  }

  /** A run of at least `threshold` failures, nothing between them, ends at position p. */
  predicate RunEnds(tail: seq<Op>, p: int, threshold: int) {
    && 0 <= p < |tail| && tail[p].Failure?
    && p + 1 >= threshold
    && forall i | 0 <= i <= p && p < i + threshold :: tail[i].Failure?
  }

  predicate FirstRunEnds(tail: seq<Op>, p: int, threshold: int) {
    RunEnds(tail, p, threshold) && forall q | 0 <= q < p :: !RunEnds(tail, q, threshold)
  }

  /** Since the last success there was a first full run of failures, and no unblock
      came after it. */
  ghost predicate MeansBlocked(ops: seq<Op>, threshold: int) {
    var tail := SinceSuccess(ops);
    exists p :: FirstRunEnds(tail, p, threshold) && forall q | p < q < |tail| :: !tail[q].Unblock?
  }

  /** How many failures the tail ends with. */
  function Trailing(tail: seq<Op>): (n: nat)
    ensures n <= |tail|
    ensures forall i | |tail| - n <= i < |tail| :: tail[i].Failure?
    ensures n < |tail| ==> !tail[|tail| - n - 1].Failure?
  {
    if tail == [] || !tail[|tail| - 1].Failure? then 0 else Trailing(tail[..|tail| - 1]) + 1
  }

  ghost predicate RowTells(row: Option<Row>, tail: seq<Op>, threshold: int) {
    match row
    case None => forall i | 0 <= i < |tail| :: tail[i].Unblock?
    case Some(r) =>
      && r.failures == Trailing(tail)
      && (r.blockedAt.Some? <==> exists p :: RunEnds(tail, p, threshold))
      && (r.blockedAt.Some? ==> exists p :: FirstRunEnds(tail, p, threshold)
                                 && (r.unblockedAt.None? <==> forall q | p < q < |tail| :: !tail[q].Unblock?))
  }

  lemma RunEndsExtends(tail: seq<Op>, op: Op, threshold: int)
    ensures forall p | 0 <= p < |tail| :: RunEnds(tail + [op], p, threshold) == RunEnds(tail, p, threshold)
    ensures forall p | 0 <= p < |tail| :: FirstRunEnds(tail + [op], p, threshold) == FirstRunEnds(tail, p, threshold)
    ensures RunEnds(tail + [op], |tail|, threshold) <==> op.Failure? && Trailing(tail) + 1 >= threshold
  {
    var longer := tail + [op];
    forall p | 0 <= p < |tail|
      ensures RunEnds(longer, p, threshold) == RunEnds(tail, p, threshold)
    {
      assert forall i | 0 <= i <= p :: longer[i] == tail[i];
    }
    if op.Failure? && Trailing(tail) + 1 < threshold && |longer| >= threshold {
      var i := |tail| - Trailing(tail) - 1;
      assert !longer[i].Failure? && 0 <= i <= |tail| && |tail| < i + threshold;
    }
  }

  lemma {:induction false} ReplayTells(ops: seq<Op>, threshold: int)
    ensures RowTells(Replay(ops, threshold), SinceSuccess(ops), threshold)
  {
    if ops != [] {
      var before, op := ops[..|ops| - 1], ops[|ops| - 1];
      ReplayTells(before, threshold);
      var tail, row := SinceSuccess(before), Replay(before, threshold);
      if !op.Success? {
        RunEndsExtends(tail, op, threshold);
        var longer := tail + [op];
        assert longer[..|tail|] == tail;
        StepTells(row, tail, op, threshold);
      }
    }
  }

  lemma StepTells(row: Option<Row>, tail: seq<Op>, op: Op, threshold: int)
    requires RowTells(row, tail, threshold) && !op.Success?
    ensures RowTells(Step(row, op, threshold), tail + [op], threshold)
  {
    RunEndsExtends(tail, op, threshold);
    var longer := tail + [op];
    assert longer[..|tail|] == tail;
    var next := Step(row, op, threshold);
    if row.None? {
      assert Trailing(tail) == 0;
      assert forall p :: !RunEnds(tail, p, threshold);
      if op.Failure? && Crosses(row, threshold) {
        assert FirstRunEnds(longer, |tail|, threshold);
      }
    } else if row.value.blockedAt.Some? {
      var p :| FirstRunEnds(tail, p, threshold)
               && (row.value.unblockedAt.None? <==> forall q | p < q < |tail| :: !tail[q].Unblock?);
      assert FirstRunEnds(longer, p, threshold);
      if next.value.unblockedAt.None? {
        assert forall q | p < q < |longer| :: !longer[q].Unblock?;
      } else if op.Unblock? {
        assert longer[|tail|].Unblock?;
      } else {
        var q :| p < q < |tail| && tail[q].Unblock?;
        assert longer[q].Unblock?;
      }
    } else if op.Failure? && Crosses(row, threshold) {
      assert FirstRunEnds(longer, |tail|, threshold);
    }
  }

  lemma FirstRunIsUnique(tail: seq<Op>, p: int, q: int, threshold: int)
    requires FirstRunEnds(tail, p, threshold) && FirstRunEnds(tail, q, threshold)
    ensures p == q
  {
  }

  /** The refusal test, over every history of one pair: blocked exactly when the
      declarative condition holds. */
  lemma BlockedMeaning(ops: seq<Op>, threshold: int)
    ensures RowBlocks(Replay(ops, threshold)) <==> MeansBlocked(ops, threshold)
  {
    ReplayTells(ops, threshold);
    var tail := SinceSuccess(ops);
    forall p, q | FirstRunEnds(tail, p, threshold) && FirstRunEnds(tail, q, threshold)
      ensures p == q
    {
      FirstRunIsUnique(tail, p, q, threshold);
    }
  }

  /** A failure reports True exactly when it completes the first full run since the
      last success. */
  lemma CrossingMeaning(ops: seq<Op>, at: real, threshold: int)
    ensures Crosses(Replay(ops, threshold), threshold)
       <==> FirstRunEnds(SinceSuccess(ops + [Failure(at)]), |SinceSuccess(ops)|, threshold)
  {
    ReplayTells(ops, threshold);
    var tail, row := SinceSuccess(ops), Replay(ops, threshold);
    assert (ops + [Failure(at)])[..|ops|] == ops;
    RunEndsExtends(tail, Failure(at), threshold);
    if row.None? {
      assert Trailing(tail) == 0;
      assert forall p :: !RunEnds(tail, p, threshold);
    }
  }

  /** After an unblock the pair is not blocked. */
  lemma UnblockOpens(ops: seq<Op>, at: real, threshold: int)
    ensures !MeansBlocked(ops + [Unblock(at)], threshold)
  {
    BlockedMeaning(ops + [Unblock(at)], threshold);
    ReplayAppend(ops, Unblock(at), threshold);
  }

  /** An unblock does not re-arm the pair: until a success no later failure blocks it
      again, however many there are. */
  lemma UnblockedStaysOpen(ops: seq<Op>, later: seq<Op>, at: real, threshold: int)
    requires MeansBlocked(ops, threshold)
    requires forall i | 0 <= i < |later| :: !later[i].Success?
    ensures !MeansBlocked(ops + [Unblock(at)] + later, threshold)
  {
    var tail := SinceSuccess(ops);
    var all := ops + [Unblock(at)] + later;
    SinceSuccessAppend(ops, [Unblock(at)] + later);
    assert all == ops + ([Unblock(at)] + later);
    var longer := tail + ([Unblock(at)] + later);
    var p :| FirstRunEnds(tail, p, threshold);
    forall q | 0 <= q < |tail|
      ensures RunEnds(longer, q, threshold) == RunEnds(tail, q, threshold)
    {
      assert forall i | 0 <= i <= q :: longer[i] == tail[i];
    }
    assert FirstRunEnds(longer, p, threshold) && longer[|tail|].Unblock?;
    forall q | FirstRunEnds(longer, q, threshold)
      ensures q == p
    {
      FirstRunIsUnique(longer, p, q, threshold);
    }
  }

  lemma {:induction false} SinceSuccessAppend(ops: seq<Op>, later: seq<Op>)
    requires forall i | 0 <= i < |later| :: !later[i].Success?
    ensures SinceSuccess(ops + later) == SinceSuccess(ops) + later
  {
    if later == [] {
      assert ops + later == ops;
    } else {
      var all := ops + later;
      assert all[..|all| - 1] == ops + later[..|later| - 1];
      SinceSuccessAppend(ops, later[..|later| - 1]);
    }
  }

  // ----- the table -----

  datatype Entry = Entry(pair: Pair, op: Op)

  function OpsOf(history: seq<Entry>, pair: Pair): seq<Op> {
    if history == [] then []
    else
      var last := history[|history| - 1];
      OpsOf(history[..|history| - 1], pair) + (if last.pair == pair then [last.op] else [])
  }

  class BlockTable {
    const threshold: int
    var rows: Table
    ghost var history: seq<Entry>

    /** Each pair's row is the replay of that pair's own operations, and of no others. */
    ghost predicate Valid()
      reads this
    {
      forall pair :: Get(rows, pair) == Replay(OpsOf(history, pair), threshold)
    }

    constructor (threshold: int)
      ensures Valid() && history == [] && rows == map[] && this.threshold == threshold
    {
      this.threshold := threshold;
      rows := map[];
      history := [];
    }

    /** The table and the history after the same operation still agree. */
    lemma Recorded(before: Table, past: seq<Entry>, pair: Pair, op: Op)
      requires forall p :: Get(before, p) == Replay(OpsOf(past, p), threshold)
      ensures var past' := past + [Entry(pair, op)];
              forall p :: Get(Update(before, pair, op, threshold), p) == Replay(OpsOf(past', p), threshold)
    {
      HistoryGrows(past, pair, op, threshold);
      forall p
        ensures Get(Update(before, pair, op, threshold), p) == Replay(OpsOf(past + [Entry(pair, op)], p), threshold)
      {
        assert Get(before, p) == Replay(OpsOf(past, p), threshold);
        assert Get(before, pair) == Replay(OpsOf(past, pair), threshold);
      }
    }

    method IsBlocked(accountId: string, ip: string) returns (blocked: bool)
      requires Valid()
      ensures blocked <==> MeansBlocked(OpsOf(history, (accountId, ip)), threshold)
    {
      var pair := (accountId, ip);
      BlockedMeaning(OpsOf(history, pair), threshold);
      assert Get(rows, pair) == Replay(OpsOf(history, pair), threshold);
      blocked := pair in rows && rows[pair].blockedAt.Some? && rows[pair].unblockedAt.None?;
    }

    method RecordFailure(accountId: string, ip: string, now: real) returns (justBlocked: bool)
      requires Valid()
      modifies this
      ensures Valid() && history == old(history) + [Entry((accountId, ip), Failure(now))]
      ensures rows == Update(old(rows), (accountId, ip), Failure(now), threshold)
      ensures (accountId, ip) in rows
      ensures justBlocked ==> rows[(accountId, ip)].blockedAt == Some(now) && rows[(accountId, ip)].unblockedAt.None?
      ensures var ops := OpsOf(old(history), (accountId, ip));
              justBlocked <==> FirstRunEnds(SinceSuccess(ops + [Failure(now)]), |SinceSuccess(ops)|, threshold)
    {
      var pair := (accountId, ip);
      assert Crosses(Get(rows, pair), threshold)
        <==> FirstRunEnds(SinceSuccess(OpsOf(history, pair) + [Failure(now)]),
                          |SinceSuccess(OpsOf(history, pair))|, threshold) by {
        CrossingMeaning(OpsOf(history, pair), now, threshold);
        assert Get(rows, pair) == Replay(OpsOf(history, pair), threshold);
      }
      var failures := 1;
      justBlocked := 1 >= threshold;
      if pair !in rows {
        rows := rows[pair := Row(failures, None, None)];
      } else {
        failures := rows[pair].failures + 1;
        justBlocked := failures >= threshold && rows[pair].blockedAt.None?;
        rows := rows[pair := rows[pair].(failures := failures)];
      }
      if justBlocked {
        rows := rows[pair := rows[pair].(blockedAt := Some(now), unblockedAt := None)];
      }
      assert rows == Update(old(rows), pair, Failure(now), threshold);
      Recorded(old(rows), history, pair, Failure(now));
      history := history + [Entry(pair, Failure(now))];
    }

    method RecordSuccess(accountId: string, ip: string)
      requires Valid()
      modifies this
      ensures Valid() && history == old(history) + [Entry((accountId, ip), Success)]
      ensures rows == Update(old(rows), (accountId, ip), Success, threshold)
      ensures rows
              == if (accountId, ip) in old(rows) then old(rows)[(accountId, ip) := Row(0, None, None)] else old(rows)
    {
      var pair := (accountId, ip);
      if pair in rows {
        rows := rows[pair := Row(0, None, None)];
      }
      Recorded(old(rows), history, pair, Success);
      history := history + [Entry(pair, Success)];
    }

    method UnblockPair(accountId: string, ip: string, now: real)
      requires Valid()
      modifies this
      ensures Valid() && history == old(history) + [Entry((accountId, ip), Unblock(now))]
      ensures rows == Update(old(rows), (accountId, ip), Unblock(now), threshold)
      ensures (accountId, ip) in rows <==> (accountId, ip) in old(rows)
      ensures (accountId, ip) in rows ==>
                rows[(accountId, ip)] == Row(0, old(rows)[(accountId, ip)].blockedAt, Some(now))
    {
      var pair := (accountId, ip);
      if pair in rows {
        rows := rows[pair := rows[pair].(failures := 0, unblockedAt := Some(now))];
      }
      Recorded(old(rows), history, pair, Unblock(now));
      history := history + [Entry(pair, Unblock(now))];
    }

    /** The pairs `list_blocked` shows are exactly the ones that are refused, each once, the
        latest blocked first. */
    method ListBlocked() returns (blocked: seq<Pair>)
      requires Valid()
      ensures forall pair :: pair in blocked <==> MeansBlocked(OpsOf(history, pair), threshold)
      ensures forall pair | pair in blocked :: pair in rows && rows[pair].blockedAt.Some?
      ensures LatestFirst(rows, blocked)
    {
      var left := set pair | pair in rows && RowBlocks(Get(rows, pair));
      blocked := [];
      while left != {}
        invariant forall pair :: pair in left || pair in blocked <==> pair in rows && RowBlocks(Get(rows, pair))
        invariant forall pair | pair in left :: pair !in blocked
        invariant forall pair, other | pair in blocked && other in left :: LaterBlocked(rows, pair, other)
        invariant LatestFirst(rows, blocked)
        decreases left
      {
        LatestExists(rows, left);
        var next :| next in left && forall other | other in left :: LaterBlocked(rows, next, other);
        LatestNext(rows, blocked, next);
        blocked := blocked + [next];
        left := left - {next};
      }
      forall pair
        ensures pair in blocked <==> MeansBlocked(OpsOf(history, pair), threshold)
      {
        BlockedMeaning(OpsOf(history, pair), threshold);
        assert Get(rows, pair) == Replay(OpsOf(history, pair), threshold);
      }
    }
  }

  /** One was blocked at the same moment as the other, or later. */
  predicate LaterBlocked(rows: Table, pair: Pair, other: Pair) {
    pair in rows && other in rows && rows[pair].blockedAt.Some? && rows[other].blockedAt.Some?
    && rows[pair].blockedAt.value >= rows[other].blockedAt.value
  }

  /** Each pair once, the latest blocked first. */
  predicate LatestFirst(rows: Table, pairs: seq<Pair>) {
    forall i, j | 0 <= i < j < |pairs| :: pairs[i] != pairs[j] && LaterBlocked(rows, pairs[i], pairs[j])
  }

  lemma LatestNext(rows: Table, pairs: seq<Pair>, next: Pair)
    requires LatestFirst(rows, pairs) && next !in pairs && forall pair | pair in pairs :: LaterBlocked(rows, pair, next)
    ensures LatestFirst(rows, pairs + [next])
  {
  }

  lemma LatestExists(rows: Table, pairs: set<Pair>)
    requires pairs != {} && forall pair | pair in pairs :: pair in rows && rows[pair].blockedAt.Some?
    ensures exists next :: next in pairs && forall other | other in pairs :: LaterBlocked(rows, next, other)
  {
    var pair :| pair in pairs;
    var rest := pairs - {pair};
    if rest == {} {
      assert pairs == {pair};
    } else {
      LatestExists(rows, rest);
      var best :| best in rest && forall other | other in rest :: LaterBlocked(rows, best, other);
      var next := if rows[pair].blockedAt.value >= rows[best].blockedAt.value then pair else best;
      forall other | other in pairs
        ensures LaterBlocked(rows, next, other)
      {
        assert other == pair || LaterBlocked(rows, best, other);
      }
    }
  }

  /** One more entry adds its operation to its own pair's history and leaves every
      other pair's alone. */
  lemma HistoryGrows(history: seq<Entry>, pair: Pair, op: Op, threshold: int)
    ensures forall p :: OpsOf(history + [Entry(pair, op)], p)
                     == if p == pair then OpsOf(history, p) + [op] else OpsOf(history, p)
    ensures Replay(OpsOf(history, pair) + [op], threshold)
         == Step(Replay(OpsOf(history, pair), threshold), op, threshold)
  {
    assert (history + [Entry(pair, op)])[..|history|] == history;
    var ops := OpsOf(history, pair);
    assert (ops + [op])[..|ops|] == ops;
    forall p
      ensures OpsOf(history, p) + [] == OpsOf(history, p)
    {
    }
  }
}
