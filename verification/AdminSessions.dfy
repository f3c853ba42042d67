/** `app/admin_sessions.py`: sessions of the admin panel. Rows keep their times as text;
    a purge compares the texts, a look-up the times. */
module AdminSessions {
  import opened IsoTime
  import opened Options

  const MINUTE := 60_000_000
  const IDLE_TIMEOUT := 30 * MINUTE
  const ABSOLUTE_TIMEOUT := 8 * 60 * MINUTE

  datatype Session = Session(username: string, csrfToken: string, createdAt: Utc, lastSeenAt: Utc)
  type Table = map<string, Session>

  /** One reading of the clock, with the two cutoffs subtracted from it. */
  datatype Reading = Reading(now: Utc, idleCutoff: Utc, absoluteCutoff: Utc)

  predicate IsReading(r: Reading) {
    && Micros(r.idleCutoff) == Micros(r.now) - IDLE_TIMEOUT
    && Micros(r.absoluteCutoff) == Micros(r.now) - ABSOLUTE_TIMEOUT
  }

  // ----- what happened to a session, purges left out -----

  /** `uses` are the moments of its creation and of every look-up since, successful or
      not. */
  datatype Story = Story(username: string, csrfToken: string, uses: seq<int>, ended: bool)
  type Stories = map<string, Story>

  predicate StepInTime(uses: seq<int>, i: nat)
    requires 1 <= i < |uses|
  {
    uses[i] - uses[i - 1] <= 1_800_000_000 && uses[i] - uses[0] <= 28_800_000_000
  }

  /** Nobody ended it and it never sat unused for more than 30 minutes, nor was it used
      more than 8 hours after the sign-in. */
  ghost predicate Unbroken(story: Story) {
    && !story.ended && |story.uses| > 0
    && forall i {:trigger StepInTime(story.uses, i)} :: 1 <= i < |story.uses| ==> StepInTime(story.uses, i)
  }

  /** A use at `now` would still be in time. */
  ghost predicate Alive(story: Story, now: int) {
    && Unbroken(story)
    && now - story.uses[|story.uses| - 1] <= 1_800_000_000 && now - story.uses[0] <= 28_800_000_000
  }

  function Used(story: Story, now: int): Story {
    story.(uses := story.uses + [now])
  }

  /** A use at `now` is in time exactly when the story with it is still unbroken. */
  lemma UsedInTime(story: Story, now: int)
    requires |story.uses| > 0
    ensures Unbroken(Used(story, now)) <==> Alive(story, now)
  {
    var uses, uses' := story.uses, Used(story, now).uses;
    if Unbroken(Used(story, now)) {
      forall i | 1 <= i < |uses|
        ensures StepInTime(uses, i)
      {
        assert StepInTime(uses', i);
      }
      assert StepInTime(uses', |uses|);
    } else if Alive(story, now) {
      forall i | 1 <= i < |uses'|
        ensures StepInTime(uses', i)
      {
        assert i < |uses| ==> StepInTime(uses, i);
      }
    }
  }

  // ----- the table against the stories -----

  ghost predicate RowTells(row: Session, story: Story) {
    && Unbroken(story) && row.username == story.username && row.csrfToken == story.csrfToken
    && Micros(row.createdAt) == story.uses[0] && Micros(row.lastSeenAt) == story.uses[|story.uses| - 1]
  }

  /** Every row tells an unbroken story, and every session still alive has its row. What
      rows there are of sessions no longer alive is up to the purges. */
  ghost predicate Represents(rows: Table, stories: Stories, clock: int) {
    && (forall h | h in rows :: h in stories && RowTells(rows[h], stories[h]))
    && (forall h | h in stories :: |stories[h].uses| > 0 && (Alive(stories[h], clock) ==> h in rows))
  }

  predicate Stale(row: Session, r: Reading) {
    Before(Text(row.lastSeenAt), Text(r.idleCutoff)) || Before(Text(row.createdAt), Text(r.absoluteCutoff))
  }

  /** `_purge_expired`. */
  function Purged(rows: Table, r: Reading): Table {
    map h | h in rows && !Stale(rows[h], r) :: rows[h]
  }

  lemma StaleMeansDead(row: Session, story: Story, r: Reading)
    requires RowTells(row, story) && IsReading(r)
    ensures Stale(row, r) <==> !Alive(story, Micros(r.now))
  {
    CutoffSelects(row.lastSeenAt, r.now, r.idleCutoff, IDLE_TIMEOUT);
    CutoffSelects(row.createdAt, r.now, r.absoluteCutoff, ABSOLUTE_TIMEOUT);
  }

  /** A purge leaves exactly the sessions alive at that moment. */
  lemma PurgeLeavesAlive(rows: Table, stories: Stories, clock: int, r: Reading)
    requires Represents(rows, stories, clock) && IsReading(r) && clock <= Micros(r.now)
    ensures Represents(Purged(rows, r), stories, Micros(r.now))
    ensures forall h :: h in Purged(rows, r) <==> h in stories && Alive(stories[h], Micros(r.now))
  {
    forall h
      ensures h in Purged(rows, r) <==> h in stories && Alive(stories[h], Micros(r.now))
    {
      if h in rows {
        StaleMeansDead(rows[h], stories[h], r);
      } else if h in stories {
        assert Alive(stories[h], Micros(r.now)) ==> Alive(stories[h], clock);
      }
    }
  }

  /** Whether a row of a session no longer alive is there is not decided by its story:
      with or without it the table represents the same stories. */
  lemma DeadRowUndecided(rows: Table, stories: Stories, clock: int, h: string, row: Session)
    requires Represents(rows, stories, clock) && h in stories
    requires RowTells(row, stories[h])
    ensures Represents(rows[h := row], stories, clock)
    ensures Represents(rows - {h}, stories, clock) <==> !Alive(stories[h], clock)
  {
  }

  /** A use in time moves the row on; a late one drops it, and breaks the story for good. */
  lemma UseRepresented(rows: Table, stories: Stories, clock: int, h: string, at: Utc)
    requires Represents(rows, stories, clock) && clock <= Micros(at) && h in stories
    ensures var now := Micros(at);
            var stories' := stories[h := Used(stories[h], now)];
            if Alive(stories[h], now) then h in rows && Represents(rows[h := rows[h].(lastSeenAt := at)], stories', now)
            else Represents(rows - {h}, stories', now)
  {
    var now := Micros(at);
    UsedInTime(stories[h], now);
    var story := Used(stories[h], now);
    assert story.uses[0] == stories[h].uses[0] && story.uses[|story.uses| - 1] == now;
    LaterRepresented(rows, stories, clock, now);
  }

  lemma LaterRepresented(rows: Table, stories: Stories, clock: int, now: int)
    requires Represents(rows, stories, clock) && clock <= now
    ensures Represents(rows, stories, now)
  {
    forall h | h in stories && Alive(stories[h], now)
      ensures h in rows
    {
      assert Alive(stories[h], clock);
    }
  }

  class SessionStore {
    const hashOf: string -> string
    var rows: Table
    ghost var stories: Stories
    ghost var clock: int

    ghost predicate Valid()
      reads this
    {
      Represents(rows, stories, clock)
    }

    constructor (hashOf: string -> string)
      ensures Valid() && this.hashOf == hashOf && rows == map[] && stories == map[] && clock == 0
    {
      this.hashOf := hashOf;
      rows, stories, clock := map[], map[], 0;
    }

    method PurgeExpired(r: Reading)
      requires Valid() && IsReading(r) && clock <= Micros(r.now)
      modifies this`rows, this`clock
      ensures Valid() && clock == Micros(r.now)
      ensures forall h :: h in rows <==> h in stories && Alive(stories[h], clock)
      ensures forall h | h in rows :: h in old(rows) && rows[h] == old(rows[h])
    {
      PurgeLeavesAlive(rows, stories, clock, r);
      rows := Purged(rows, r);
      clock := Micros(r.now);
    }

    method Create(username: string, token: string, csrfToken: string, r: Reading)
      requires Valid() && IsReading(r) && clock <= Micros(r.now) && hashOf(token) !in stories
      modifies this
      ensures Valid() && clock == Micros(r.now)
      ensures stories == old(stories)[hashOf(token) := Story(username, csrfToken, [clock], false)]
      ensures Alive(stories[hashOf(token)], clock)
    {
      PurgeExpired(r);
      rows := rows[hashOf(token) := Session(username, csrfToken, r.now, r.now)];
      stories := stories[hashOf(token) := Story(username, csrfToken, [clock], false)];
    }

    /** A look-up succeeds exactly when the session's story says it is alive; no purge is
        part of that story. */
    method Lookup(token: string, r: Reading) returns (found: Option<Session>)
      requires Valid() && IsReading(r) && clock <= Micros(r.now)
      modifies this
      ensures Valid() && clock == Micros(r.now)
      ensures found.Some? <==> token != "" && hashOf(token) in old(stories) && Alive(old(stories)[hashOf(token)], clock)
      ensures found.Some? ==> RowTells(found.value, old(stories)[hashOf(token)])
      ensures stories == if token != "" && hashOf(token) in old(stories)
                         then old(stories)[hashOf(token) := Used(old(stories)[hashOf(token)], clock)]
                         else old(stories)
      ensures forall h | h != hashOf(token) ::
                (h in rows <==> h in old(rows)) && (h in rows ==> rows[h] == old(rows[h]))
    {
      LaterRepresented(rows, stories, clock, Micros(r.now));
      if token == "" {
        clock := Micros(r.now);
        return None;
      }
      var h := hashOf(token);
      if h in stories {
        UseRepresented(rows, stories, clock, h, r.now);
        stories := stories[h := Used(stories[h], Micros(r.now))];
      }
      clock := Micros(r.now);
      if h !in rows {
        assert rows - {h} == rows;
        return None;
      }
      var row := rows[h];
      if Micros(r.now) - Micros(row.lastSeenAt) > IDLE_TIMEOUT
         || Micros(r.now) - Micros(row.createdAt) > ABSOLUTE_TIMEOUT {
        rows := rows - {h};
        return None;
      }
      rows := rows[h := row.(lastSeenAt := r.now)];
      found := Some(row);
    }

    /** Signing out. It answers whether there was a row to delete, and so can tell
        whether a dead session has been purged yet. */
    method End(h: string) returns (ended: bool)
      requires Valid()
      modifies this`rows, this`stories
      ensures Valid()
      ensures ended <==> h in old(rows)
      ensures h in old(stories) && Alive(old(stories)[h], clock) ==> ended
      ensures stories == if h in old(stories) then old(stories)[h := old(stories)[h].(ended := true)] else old(stories)
      ensures rows == old(rows) - {h}
    {
      ended := h in rows;
      rows := rows - {h};
      if h in stories {
        stories := stories[h := stories[h].(ended := true)];
      }
    }

    /** The list in the panel shows exactly the sessions alive, each once, the one used
        last first: the rows are ordered by the text of their last use, and that is the
        order of the uses. */
    method ListSessions(r: Reading) returns (listed: seq<string>)
      requires Valid() && IsReading(r) && clock <= Micros(r.now)
      modifies this`rows, this`clock
      ensures Valid() && clock == Micros(r.now)
      ensures forall h :: h in listed <==> h in stories && Alive(stories[h], clock)
      ensures forall h | h in listed :: h in rows && RowTells(rows[h], stories[h])
      ensures forall i, j | 0 <= i < j < |listed| :: listed[i] != listed[j] && UsedLater(stories, listed[i], listed[j])
    {
      PurgeExpired(r);
      listed := OrderedByText(rows);
      forall i, j | 0 <= i < j < |listed|
        ensures listed[i] != listed[j] && UsedLater(stories, listed[i], listed[j])
      {
        assert listed[i] in listed && listed[j] in listed && NotBefore(rows, listed[i], listed[j]);
        TextComparesTimes(rows[listed[i]].lastSeenAt, rows[listed[j]].lastSeenAt);
      }
    }
  }

  predicate UsedLater(stories: Stories, h: string, other: string) {
    && h in stories && other in stories && |stories[h].uses| > 0 && |stories[other].uses| > 0
    && stories[h].uses[|stories[h].uses| - 1] >= stories[other].uses[|stories[other].uses| - 1]
  }

  // ----- ORDER BY last_seen_at DESC -----

  /** In descending order of the texts, h may come before the other. */
  predicate NotBefore(rows: Table, h: string, other: string) {
    h in rows && other in rows && !Before(Text(rows[h].lastSeenAt), Text(rows[other].lastSeenAt))
  }

  predicate LatestFirst(rows: Table, listed: seq<string>) {
    forall i, j | 0 <= i < j < |listed| :: listed[i] != listed[j] && NotBefore(rows, listed[i], listed[j])
  }

  lemma LatestNext(rows: Table, listed: seq<string>, next: string)
    requires LatestFirst(rows, listed) && next !in listed && forall h | h in listed :: NotBefore(rows, h, next)
    ensures LatestFirst(rows, listed + [next])
  {
  }

  method OrderedByText(rows: Table) returns (listed: seq<string>)
    ensures forall h :: h in listed <==> h in rows
    ensures LatestFirst(rows, listed)
  {
    var left := rows.Keys;
    listed := [];
    while left != {}
      invariant forall h :: h in left || h in listed <==> h in rows
      invariant forall h | h in left :: h !in listed
      invariant forall h, other | h in listed && other in left :: NotBefore(rows, h, other)
      invariant LatestFirst(rows, listed)
      decreases left
    {
      LatestExists(rows, left);
      var next :| next in left && forall other | other in left :: NotBefore(rows, next, other);
      LatestNext(rows, listed, next);
      listed := listed + [next];
      left := left - {next};
    }
  }

  lemma LatestExists(rows: Table, hs: set<string>)
    requires hs != {} && hs <= rows.Keys
    ensures exists next :: next in hs && forall other | other in hs :: NotBefore(rows, next, other)
  {
    var h :| h in hs;
    var rest := hs - {h};
    TextComparesTimes(rows[h].lastSeenAt, rows[h].lastSeenAt);
    if rest == {} {
      assert hs == {h};
    } else {
      LatestExists(rows, rest);
      var best :| best in rest && forall other | other in rest :: NotBefore(rows, best, other);
      var next := if Before(Text(rows[h].lastSeenAt), Text(rows[best].lastSeenAt)) then best else h;
      forall other | other in hs
        ensures NotBefore(rows, next, other)
      {
        LaterThanBest(rows, h, best, next, other);
      }
    }
  }

  lemma LaterThanBest(rows: Table, h: string, best: string, next: string, other: string)
    requires h in rows && (other == h || NotBefore(rows, best, other)) && best in rows
    requires next == if Before(Text(rows[h].lastSeenAt), Text(rows[best].lastSeenAt)) then best else h
    ensures NotBefore(rows, next, other)
  {
    TextComparesTimes(rows[h].lastSeenAt, rows[best].lastSeenAt);
    TextComparesTimes(rows[best].lastSeenAt, rows[h].lastSeenAt);
    TextComparesTimes(rows[h].lastSeenAt, rows[h].lastSeenAt);
    if other in rows {
      TextComparesTimes(rows[best].lastSeenAt, rows[other].lastSeenAt);
      TextComparesTimes(rows[h].lastSeenAt, rows[other].lastSeenAt);
    }
  }
}
