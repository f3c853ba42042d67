/** `app/recovery_codes.py`: batches of one-time codes, one generation at a time. */
module RecoveryCodes {
  import opened Options

  /** An Argon2 hash. Verifying a code against one succeeds exactly for the code it
      was made from. */
  datatype Hash = Argon2(code: string)

  datatype Row = Row(accountId: string, hash: Hash, generation: int, used: bool)
  /** `recovery_code_generations` and `recovery_codes`; a row's id is its index. */
  datatype Db = Db(generations: map<string, int>, rows: seq<Row>)
  /** What `verify_code` carries over its awaits. */
  datatype Candidate = Candidate(id: nat, hash: Hash)

  const EMPTY := Db(map[], [])

  function Current(db: Db, accountId: string): Option<int> {
    if accountId in db.generations then Some(db.generations[accountId]) else None
  }

  function Next(db: Db, accountId: string): int {
    if accountId in db.generations then db.generations[accountId] + 1 else 1
  }

  predicate Usable(row: Row, accountId: string, generation: int) {
    row.accountId == accountId && row.generation == generation && !row.used
  }

  /** The second query of `verify_code`. */
  function Snapshot(rows: seq<Row>, accountId: string, generation: int): seq<Candidate> {
    if rows == [] then []
    else
      var last := |rows| - 1;
      Snapshot(rows[..last], accountId, generation)
      + (if Usable(rows[last], accountId, generation) then [Candidate(last, rows[last].hash)] else [])
  }

  /** The first candidate whose hash is of this code. */
  function Match(candidates: seq<Candidate>, code: string): Option<nat> {
    if candidates == [] then None
    else if candidates[0].hash == Argon2(code) then Some(candidates[0].id)
    else Match(candidates[1..], code)
  }

  function Spend(db: Db, id: nat): Db {
    if id < |db.rows| then db.(rows := db.rows[id := db.rows[id].(used := true)]) else db
  }

  function Inserted(accountId: string, generation: int, codes: seq<string>): (r: seq<Row>)
    ensures |r| == |codes|
    ensures forall i | 0 <= i < |r| :: r[i] == Row(accountId, Argon2(codes[i]), generation, false)
  {
    if codes == [] then []
    else Inserted(accountId, generation, codes[..|codes| - 1])
         + [Row(accountId, Argon2(codes[|codes| - 1]), generation, false)]
  }

  function Generated(db: Db, accountId: string, codes: seq<string>): Db {
    var generation := Next(db, accountId);
    Db(db.generations[accountId := generation], db.rows + Inserted(accountId, generation, codes))
  }

  /** `COUNT(*)` of the unused codes of one generation. */
  function Unused(rows: seq<Row>, accountId: string, generation: int): nat {
    if rows == [] then 0
    else
      Unused(rows[..|rows| - 1], accountId, generation)
      + (if Usable(rows[|rows| - 1], accountId, generation) then 1 else 0)
  }

  function Remaining(db: Db, accountId: string): nat {
    match Current(db, accountId)
    case None => 0
    case Some(generation) => Unused(db.rows, accountId, generation)
  }

  /** No row is from a generation that has not been announced. */
  ghost predicate Announced(db: Db) {
    forall i | 0 <= i < |db.rows| ::
      db.rows[i].accountId in db.generations && db.rows[i].generation <= db.generations[db.rows[i].accountId]
  }

  // ----- the snapshot and the match -----

  lemma {:induction false} SnapshotHolds(rows: seq<Row>, accountId: string, generation: int)
    ensures forall c | c in Snapshot(rows, accountId, generation) ::
              c.id < |rows| && Usable(rows[c.id], accountId, generation) && c.hash == rows[c.id].hash
    ensures forall i | 0 <= i < |rows| && Usable(rows[i], accountId, generation) ::
              Candidate(i, rows[i].hash) in Snapshot(rows, accountId, generation)
  {
    if rows != [] {
      SnapshotHolds(rows[..|rows| - 1], accountId, generation);
    }
  }

  lemma {:induction false} MatchFinds(candidates: seq<Candidate>, code: string)
    ensures Match(candidates, code).None? <==> forall c | c in candidates :: c.hash != Argon2(code)
    ensures Match(candidates, code).Some? ==> Candidate(Match(candidates, code).value, Argon2(code)) in candidates
  {
    if candidates != [] && candidates[0].hash != Argon2(code) {
      MatchFinds(candidates[1..], code);
      assert candidates == [candidates[0]] + candidates[1..];
    }
  }

  /** Checking a code against a snapshot succeeds exactly when an unused row of that
      generation holds it, and then names such a row. */
  lemma MatchMeaning(rows: seq<Row>, accountId: string, generation: int, code: string)
    ensures var found := Match(Snapshot(rows, accountId, generation), code);
            && (found.Some? <==> exists i | 0 <= i < |rows| ::
                  rows[i] == Row(accountId, Argon2(code), generation, false))
            && (found.Some? ==> found.value < |rows|
                                && rows[found.value] == Row(accountId, Argon2(code), generation, false))
  {
    SnapshotHolds(rows, accountId, generation);
    MatchFinds(Snapshot(rows, accountId, generation), code);
  }

  /** Right after a batch the account's codes are those of the batch, and no others. */
  lemma FreshBatchAccepts(db: Db, accountId: string, codes: seq<string>, code: string)
    requires Announced(db)
    ensures var after := Generated(db, accountId, codes);
            accountId in after.generations
            && (Match(Snapshot(after.rows, accountId, after.generations[accountId]), code).Some? <==> code in codes)
  {
    var after := Generated(db, accountId, codes);
    MatchMeaning(after.rows, accountId, after.generations[accountId], code);
    var n := |db.rows|;
    if code in codes {
      var i :| 0 <= i < |codes| && codes[i] == code;
      assert after.rows[n + i] == Row(accountId, Argon2(code), after.generations[accountId], false);
    }
    forall i | 0 <= i < |after.rows| && Usable(after.rows[i], accountId, after.generations[accountId])
               && after.rows[i].hash == Argon2(code)
      ensures code in codes
    {
      if i >= n {
        assert after.rows[i] == Inserted(accountId, after.generations[accountId], codes)[i - n];
      }
    }
  }

  // ----- interleavings at the awaits -----

  /** What can happen to the table between two awaits of one check. */
  datatype Change = Batch(accountId: string, codes: seq<string>) | Commit(id: nat)

  function Apply(db: Db, change: Change): Db {
    match change
    case Batch(accountId, codes) => Generated(db, accountId, codes)
    case Commit(id) => Spend(db, id)
  }

  function Run(db: Db, changes: seq<Change>): Db {
    if changes == [] then db else Apply(Run(db, changes[..|changes| - 1]), changes[|changes| - 1])
  }

  /** Rows are never removed or altered but for the mark a commit puts on its own row;
      a new batch never adds to a generation already announced. */
  lemma {:induction false} RunKeepsRows(db: Db, changes: seq<Change>)
    requires Announced(db)
    ensures var after := Run(db, changes);
      && Announced(after) && |db.rows| <= |after.rows| && db.generations.Keys <= after.generations.Keys
      && (forall i | 0 <= i < |db.rows| ::
            after.rows[i] == db.rows[i].(used := db.rows[i].used || Commit(i) in changes))
      && (forall a | a in db.generations :: db.generations[a] <= after.generations[a])
      && (forall i | |db.rows| <= i < |after.rows| && after.rows[i].accountId in db.generations ::
            db.generations[after.rows[i].accountId] < after.rows[i].generation)
  {
    if changes != [] {
      var earlier, last := changes[..|changes| - 1], changes[|changes| - 1];
      RunKeepsRows(db, earlier);
      assert changes == earlier + [last];
    }
  }

  /** A code no other row of its account holds. */
  ghost predicate Distinct(db: Db, id: nat)
    requires id < |db.rows|
  {
    forall j | 0 <= j < |db.rows| && j != id ::
      db.rows[j].accountId == db.rows[id].accountId ==> db.rows[j].hash != db.rows[id].hash
  }

  /** For a code that is unique in its account's table, a check whose snapshot is taken
      after any interleaving of batches and commits accepts it from row `id` exactly
      when no commit of that row came before the snapshot. */
  lemma AcceptedIffNotYetCommitted(db: Db, id: nat, changes: seq<Change>)
    requires Announced(db) && id < |db.rows| && !db.rows[id].used
    requires Distinct(db, id)
    ensures var row, after := db.rows[id], Run(db, changes);
            Match(Snapshot(after.rows, row.accountId, row.generation), row.hash.code)
            == if Commit(id) in changes then None else Some(id)
  {
    RunKeepsRows(db, changes);
    var row, after := db.rows[id], Run(db, changes);
    MatchMeaning(after.rows, row.accountId, row.generation, row.hash.code);
    forall i | 0 <= i < |after.rows| && Usable(after.rows[i], row.accountId, row.generation)
               && after.rows[i].hash == row.hash
      ensures i == id
    {
      assert i < |db.rows|;
    }
    assert Commit(id) !in changes ==> Usable(after.rows[id], row.accountId, row.generation);
  }

  /** Without any assumption on the codes: no check whose snapshot follows a commit of a
      row is ever satisfied by that row again. */
  lemma CommittedRowNeverMatches(db: Db, id: nat, changes: seq<Change>, accountId: string, generation: int,
                                 code: string)
    requires Announced(db) && id < |db.rows|
    ensures Match(Snapshot(Run(Spend(db, id), changes).rows, accountId, generation), code) != Some(id)
  {
    RunKeepsRows(Spend(db, id), changes);
    MatchMeaning(Run(Spend(db, id), changes).rows, accountId, generation, code);
  }

  /** Two checks that both took their snapshot before either committed both accept the
      code, whatever else happened between the snapshots, and neither notices the other's
      commit; a third, after the commit, does not accept it. */
  lemma OverlappingChecksBothAccept(db: Db, id: nat, between: seq<Change>)
    requires Announced(db) && id < |db.rows| && !db.rows[id].used && Distinct(db, id)
    requires Commit(id) !in between
    ensures var row, later := db.rows[id], Run(db, between);
            var first := Snapshot(db.rows, row.accountId, row.generation);
            var second := Snapshot(later.rows, row.accountId, row.generation);
            var third := Snapshot(Spend(later, id).rows, row.accountId, row.generation);
            && Match(first, row.hash.code) == Some(id) && Match(second, row.hash.code) == Some(id)
            && Match(third, row.hash.code) == None
  {
    AcceptedIffNotYetCommitted(db, id, []);
    assert Run(db, []) == db;
    AcceptedIffNotYetCommitted(db, id, between);
    var all := between + [Commit(id)];
    assert all[..|all| - 1] == between;
    AcceptedIffNotYetCommitted(db, id, all);
  }

  // ----- earlier generations -----

  /** A check made from first query to commit after a batch accepts no earlier row of
      the account, whatever happened since the batch. */
  lemma EarlierGenerationsEnd(db: Db, accountId: string, codes: seq<string>, changes: seq<Change>, code: string)
    requires Announced(db)
    ensures var after := Run(Generated(db, accountId, codes), changes);
            accountId in after.generations
            && var found := Match(Snapshot(after.rows, accountId, after.generations[accountId]), code);
            found.Some? ==> |db.rows| <= found.value < |after.rows|
  {
    var issued := Generated(db, accountId, codes);
    GeneratedAnnounced(db, accountId, codes);
    RunKeepsRows(issued, changes);
    var after := Run(issued, changes);
    MatchMeaning(after.rows, accountId, after.generations[accountId], code);
    forall i | 0 <= i < |db.rows| && db.rows[i].accountId == accountId
      ensures after.rows[i].generation < after.generations[accountId]
    {
      assert after.rows[i].generation == issued.rows[i].generation == db.rows[i].generation;
    }
  }

  lemma GeneratedAnnounced(db: Db, accountId: string, codes: seq<string>)
    requires Announced(db)
    ensures Announced(Generated(db, accountId, codes))
  {
  }

  /** A check that is under way when a batch lands accepts an old code exactly if it had
      read the generation before the batch, and no commit of the row comes before its
      snapshot. */
  lemma OldCodeAcceptedExactlyIfReadBefore(db: Db, id: nat, codes: seq<string>, changes: seq<Change>, generation: int)
    requires Announced(db) && id < |db.rows| && !db.rows[id].used && Distinct(db, id)
    ensures var row, after := db.rows[id], Run(Generated(db, db.rows[id].accountId, codes), changes);
            Match(Snapshot(after.rows, row.accountId, generation), row.hash.code) == Some(id)
            <==> generation == row.generation && Commit(id) !in changes
  {
    var row := db.rows[id];
    var all := [Batch(row.accountId, codes)] + changes;
    RunFrom(db, Batch(row.accountId, codes), changes);
    AcceptedIffNotYetCommitted(db, id, all);
    assert Commit(id) in all <==> Commit(id) in changes;
    RunKeepsRows(db, all);
    MatchMeaning(Run(db, all).rows, row.accountId, generation, row.hash.code);
  }

  lemma {:induction false} RunFrom(db: Db, first: Change, changes: seq<Change>)
    ensures Run(db, [first] + changes) == Run(Apply(db, first), changes)
  {
    var all := [first] + changes;
    if changes == [] {
      assert all[..|all| - 1] == [];
      assert Run(db, []) == db;
    } else {
      assert all[..|all| - 1] == [first] + changes[..|changes| - 1];
      RunFrom(db, first, changes[..|changes| - 1]);
    }
  }

  // ----- sequential histories -----

  datatype Event = Issued(accountId: string, count: nat) | Checked(accountId: string, accepted: bool)

  /** The size of the account's latest batch. */
  function BatchSize(history: seq<Event>, accountId: string): nat {
    if history == [] then 0
    else
      var last := history[|history| - 1];
      if last.Issued? && last.accountId == accountId then last.count
      else BatchSize(history[..|history| - 1], accountId)
  }

  /** Codes of the account accepted since its latest batch. */
  function AcceptedSince(history: seq<Event>, accountId: string): nat {
    if history == [] then 0
    else
      var last := history[|history| - 1];
      if last.Issued? && last.accountId == accountId then 0
      else
        AcceptedSince(history[..|history| - 1], accountId)
        + (if last.accountId == accountId && last.accepted then 1 else 0)
  }

  /** The accounts that ever had a batch. */
  ghost predicate EverIssued(history: seq<Event>, accountId: string) {
    exists i | 0 <= i < |history| :: history[i].Issued? && history[i].accountId == accountId
  }

  lemma {:induction false} SpendCounts(rows: seq<Row>, id: nat, accountId: string, generation: int)
    requires id < |rows|
    ensures Unused(rows[id := rows[id].(used := true)], accountId, generation)
         == Unused(rows, accountId, generation) - (if Usable(rows[id], accountId, generation) then 1 else 0)
  {
    var spent, last := rows[id := rows[id].(used := true)], |rows| - 1;
    if id == last {
      assert spent[..last] == rows[..last];
    } else {
      SpendCounts(rows[..last], id, accountId, generation);
      assert spent[..last] == rows[..last][id := rows[id].(used := true)];
    }
  }

  lemma {:induction false} InsertCounts(rows: seq<Row>, inserted: seq<Row>, accountId: string, generation: int)
    requires forall i | 0 <= i < |inserted| :: Usable(inserted[i], accountId, generation)
                                               == Usable(inserted[0], accountId, generation)
    ensures Unused(rows + inserted, accountId, generation) == Unused(rows, accountId, generation)
         + (if inserted != [] && Usable(inserted[0], accountId, generation) then |inserted| else 0)
  {
    if inserted == [] {
      assert rows + inserted == rows;
    } else {
      var last := |inserted| - 1;
      assert (rows + inserted)[..|rows| + last] == rows + inserted[..last];
      InsertCounts(rows, inserted[..last], accountId, generation);
    }
  }

  lemma {:induction false} NoneYet(rows: seq<Row>, accountId: string, generation: int)
    requires forall i | 0 <= i < |rows| :: !Usable(rows[i], accountId, generation)
    ensures Unused(rows, accountId, generation) == 0
  {
    if rows != [] {
      NoneYet(rows[..|rows| - 1], accountId, generation);
    }
  }

  /** Every account's books: accepted codes of the current batch plus codes left are the
      batch. */
  ghost predicate Balanced(db: Db, history: seq<Event>) {
    && Announced(db)
    && (forall a: string :: a in db.generations <==> EverIssued(history, a))
    && (forall a: string :: AcceptedSince(history, a) + Remaining(db, a) == BatchSize(history, a))
  }

  lemma IssueBalances(db: Db, history: seq<Event>, accountId: string, codes: seq<string>)
    requires Balanced(db, history)
    ensures Balanced(Generated(db, accountId, codes), history + [Issued(accountId, |codes|)])
  {
    var after, longer := Generated(db, accountId, codes), history + [Issued(accountId, |codes|)];
    assert longer[..|history|] == history;
    var inserted := Inserted(accountId, Next(db, accountId), codes);
    forall a: string
      ensures AcceptedSince(longer, a) + Remaining(after, a) == BatchSize(longer, a)
      ensures a in after.generations <==> EverIssued(longer, a)
    {
      assert AcceptedSince(history, a) + Remaining(db, a) == BatchSize(history, a);
      if a == accountId {
        NoneYet(db.rows, a, Next(db, a));
        InsertCounts(db.rows, inserted, a, Next(db, a));
        assert longer[|history|].Issued?;
      } else {
        if a in db.generations {
          InsertCounts(db.rows, inserted, a, db.generations[a]);
        }
        assert EverIssued(history, a) ==> EverIssued(longer, a) by {
          if EverIssued(history, a) {
            var i :| 0 <= i < |history| && history[i].Issued? && history[i].accountId == a;
            assert longer[i] == history[i];
          }
        }
      }
    }
  }

  lemma CheckBalances(db: Db, history: seq<Event>, accountId: string, spent: Option<nat>)
    requires Balanced(db, history)
    requires spent.Some? ==> accountId in db.generations && spent.value < |db.rows|
                             && Usable(db.rows[spent.value], accountId, db.generations[accountId])
    ensures Balanced(if spent.Some? then Spend(db, spent.value) else db,
                     history + [Checked(accountId, spent.Some?)])
  {
    var after := if spent.Some? then Spend(db, spent.value) else db;
    var longer := history + [Checked(accountId, spent.Some?)];
    assert longer[..|history|] == history;
    forall a: string
      ensures AcceptedSince(longer, a) + Remaining(after, a) == BatchSize(longer, a)
      ensures a in after.generations <==> EverIssued(longer, a)
    {
      assert AcceptedSince(history, a) + Remaining(db, a) == BatchSize(history, a);
      if spent.Some? && a in db.generations {
        SpendCounts(db.rows, spent.value, a, db.generations[a]);
      }
      assert EverIssued(history, a) ==> EverIssued(longer, a) by {
        if EverIssued(history, a) {
          var i :| 0 <= i < |history| && history[i].Issued? && history[i].accountId == a;
          assert longer[i] == history[i];
        }
      }
    }
  }

  class CodeTable {
    const batchSize: int
    var db: Db
    ghost var history: seq<Event>

    ghost predicate Valid()
      reads this
    {
      Balanced(db, history)
    }

    constructor (batchSize: int)
      ensures Valid() && history == [] && this.batchSize == batchSize
    {
      this.batchSize := batchSize;
      db, history := EMPTY, [];
    }

    /** A count of None or zero falls back to the configured batch size. Every code of
        an earlier generation stops counting at once. */
    method GenerateBatch(accountId: string, count: Option<int>, draw: nat -> string) returns (codes: seq<string>)
      requires Valid()
      modifies this
      ensures Valid() && history == old(history) + [Issued(accountId, |codes|)]
      ensures db == Generated(old(db), accountId, codes)
      ensures var wanted := if count.Some? && count.value != 0 then count.value else batchSize;
              |codes| == if wanted > 0 then wanted else 0
      ensures forall i | 0 <= i < |codes| :: codes[i] == draw(i)
      ensures Remaining(db, accountId) == |codes|
    {
      var wanted := if count.Some? && count.value != 0 then count.value else batchSize;
      var generation := if accountId in db.generations then db.generations[accountId] + 1 else 1;
      ghost var before := db;
      var rows := db.rows;
      codes := [];
      while |codes| < wanted
        invariant |codes| <= wanted || codes == []
        invariant forall i | 0 <= i < |codes| :: codes[i] == draw(i)
        invariant rows == before.rows + Inserted(accountId, generation, codes)
      {
        var code := draw(|codes|);
        codes := codes + [code];
        assert codes[..|codes| - 1] + [code] == codes;
        rows := rows + [Row(accountId, Argon2(code), generation, false)];
      }
      Announce(accountId, generation, rows, codes);
    }

    /** The inserts are committed together with their generation. */
    method Announce(accountId: string, generation: int, rows: seq<Row>, ghost codes: seq<string>)
      requires Valid() && generation == Next(db, accountId) && rows == db.rows + Inserted(accountId, generation, codes)
      modifies this
      ensures Valid() && history == old(history) + [Issued(accountId, |codes|)]
      ensures db == Generated(old(db), accountId, codes) && Remaining(db, accountId) == |codes|
    {
      ghost var before := db;
      db := Db(db.generations[accountId := generation], rows);
      IssueBalances(before, history, accountId, codes);
      history := history + [Issued(accountId, |codes|)];
      assert AcceptedSince(history, accountId) + Remaining(db, accountId) == BatchSize(history, accountId);
    }

    /** `_find_matching_code`: one pass over the candidates, mismatches skipped. */
    static method FindMatchingCode(candidates: seq<Candidate>, code: string) returns (found: Option<nat>)
      ensures found == Match(candidates, code)
      ensures found.None? <==> forall c | c in candidates :: c.hash != Argon2(code)
    {
      MatchFinds(candidates, code);
      var i := 0;
      while i < |candidates|
        invariant 0 <= i <= |candidates|
        invariant Match(candidates, code) == Match(candidates[i..], code)
      {
        if candidates[i].hash == Argon2(code) {
          return Some(candidates[i].id);
        }
        i := i + 1;
      }
      found := None;
    }

    /** One check run from its first query to its commit with nothing in between. It
        succeeds exactly when an unused row of the current generation holds the code,
        and then spends exactly one such row. */
    method VerifyCode(accountId: string, code: string) returns (valid: bool)
      requires Valid()
      modifies this
      ensures Valid() && history == old(history) + [Checked(accountId, valid)]
      ensures valid <==> exists i | 0 <= i < |old(db.rows)| ::
        && accountId in old(db.generations)
        && Usable(old(db.rows)[i], accountId, old(db.generations)[accountId])
        && old(db.rows)[i].hash == Argon2(code)
      ensures !valid ==> db == old(db)
      ensures valid ==> exists id | 0 <= id < |old(db.rows)| ::
        && Usable(old(db.rows)[id], accountId, old(db.generations)[accountId])
        && old(db.rows)[id].hash == Argon2(code) && db == Spend(old(db), id)
    {
      if accountId !in db.generations {
        valid := false;
        CheckBalances(db, history, accountId, None);
        history := history + [Checked(accountId, false)];
        return;
      }
      var generation := db.generations[accountId];
      var candidates := Snapshot(db.rows, accountId, generation);
      MatchMeaning(db.rows, accountId, generation, code);
      var matched := FindMatchingCode(candidates, code);
      CheckBalances(db, history, accountId, matched);
      history := history + [Checked(accountId, matched.Some?)];
      if matched.Some? {
        db := Spend(db, matched.value);
      }
      valid := matched.Some?;
    }

    method RemainingCount(accountId: string) returns (count: nat)
      requires Valid()
      ensures count + AcceptedSince(history, accountId) == BatchSize(history, accountId)
    {
      count := Remaining(db, accountId);
    }

    method HasEverBeenGenerated(accountId: string) returns (ever: bool)
      requires Valid()
      ensures ever <==> EverIssued(history, accountId)
    {
      ever := accountId in db.generations;
    }
  }
}
