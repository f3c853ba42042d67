/** `app/idp_jwt.py`: the signing key, its rotation, and what the JWKS publishes. */
module SigningKeys {
  import opened Options

  const SECOND := 1_000_000
  const ROTATION_OVERLAP := 3600 * SECOND
  const TOKEN_TTL_SECONDS := 300

  /** Times are whole microseconds. A key pair is a name; a signature made with one pair
      verifies under that pair's public half and no other. */
  datatype Row = Row(pair: nat, createdAt: int, active: bool, retiredAt: Option<int>)
  type Table = map<string, Row>
  /** What `_published` keeps of a row. */
  datatype Published = Published(pair: nat, retiredAt: Option<int>)

  /** A signed id_token: its header, who signed it, and when it stops being good. */
  datatype Token = Token(kid: string, signedBy: nat, exp: int)
  type Jwks = map<string, nat>

  predicate Verifies(jwks: Jwks, token: Token) {
    token.kid in jwks && jwks[token.kid] == token.signedBy
  }

  // ----- the table operations -----

  /** `_purge_expired`. */
  function Purged(rows: Table, now: int): Table {
    map k | k in rows && !(!rows[k].active
                           && (rows[k].retiredAt.None? || rows[k].retiredAt.value <= now - ROTATION_OVERLAP)) :: rows[k]
  }

  /** The rotation's first statement: the active rows deleted, or retired. */
  function Retired(rows: Table, discardOld: bool, now: int): Table {
    if discardOld then map k | k in rows && !rows[k].active :: rows[k]
    else map k | k in rows :: if rows[k].active then rows[k].(active := false, retiredAt := Some(now)) else rows[k]
  }

  function PublishedRows(rows: Table): map<string, Published> {
    map k | k in rows :: Published(rows[k].pair, rows[k].retiredAt)
  }

  /** `get_jwks`: expired keys are left out even if no purge has run yet. */
  function JwksOf(published: map<string, Published>, now: int): Jwks {
    map k | k in published
            && (published[k].retiredAt.None? || published[k].retiredAt.value > now - ROTATION_OVERLAP)
         :: published[k].pair
  }

  // ----- what became of every key there ever was -----

  /** The history: each key ever made, when it was retired, whether it was discarded. No
      purge appears in it. */
  datatype Fate = Fate(pair: nat, retired: Option<int>, discarded: bool)
  type Fates = map<string, Fate>

  predicate Live(fates: Fates, k: string) {
    k in fates && !fates[k].discarded && fates[k].retired.None?
  }

  /** A key belongs in the JWKS: signing, or retired less than the overlap ago. */
  predicate Belongs(fates: Fates, k: string, now: int) {
    k in fates && !fates[k].discarded
    && (fates[k].retired.None? || fates[k].retired.value > now - ROTATION_OVERLAP)
  }

  /** The table holds only undiscarded keys, as history has them, and at least all those
      that still belong. */
  ghost predicate Faithful(rows: Table, fates: Fates, clock: int) {
    && (forall k | k in rows ::
          k in fates && !fates[k].discarded && rows[k].pair == fates[k].pair && rows[k].retiredAt == fates[k].retired
          && (rows[k].active <==> fates[k].retired.None?))
    && (forall k | Belongs(fates, k, clock) :: k in rows)
    && (forall k | k in fates && fates[k].retired.Some? :: fates[k].retired.value <= clock)
    && (forall j, k | Live(fates, j) && Live(fates, k) :: j == k)
  }

  ghost predicate OneActiveAtMost(rows: Table) {
    forall j, k | j in rows && k in rows && rows[j].active && rows[k].active :: j == k
  }

  /** A token was signed by the key its header names, no later than that key's
      retirement, and expires five minutes later. */
  datatype Issue = Issue(token: Token, at: int)

  ghost predicate IssuedWell(issues: set<Issue>, fates: Fates, clock: int) {
    forall i | i in issues ::
      && i.token.kid in fates && i.token.signedBy == fates[i.token.kid].pair && 0 <= i.at <= clock
      && i.token.exp == i.at / SECOND + TOKEN_TTL_SECONDS
      && (fates[i.token.kid].retired.Some? ==> i.at <= fates[i.token.kid].retired.value)
  }

  function FatesAfterRotate(fates: Fates, discardOld: bool, kid: string, pair: nat, now: int): Fates {
    (map k | k in fates ::
       if Live(fates, k) then
         if discardOld then fates[k].(discarded := true) else fates[k].(retired := Some(now))
       else fates[k])[kid := Fate(pair, None, false)]
  }

  /** What a rotation does to the keys there were: the live one is discarded, or retired at
      this moment, as was asked; the others keep their fate, and the new one has none. */
  predicate RotatedFates(was: Fates, fates: Fates, discardOld: bool, kid: string, pair: nat, now: int) {
    && fates.Keys == was.Keys + {kid} && fates[kid] == Fate(pair, None, false)
    && forall k | k in was && k != kid ::
         if was[k].discarded || was[k].retired.Some? then fates[k] == was[k]
         else if discardOld then fates[k] == Fate(was[k].pair, None, true)
         else fates[k] == Fate(was[k].pair, Some(now), false)
  }

  /** And to their rows: a discarded key is gone at once, a retired one stays for an hour,
      and any other retired earlier goes when its hour is over. */
  predicate RotatedRows(was: Table, rows: Table, discardOld: bool, kid: string, pair: nat, now: int) {
    && kid in rows && rows[kid] == Row(pair, now, true, None)
    && (forall k | k in rows && k != kid :: k in was)
    && forall k | k in was && k != kid ::
         if was[k].active then
           if discardOld then k !in rows
           else k in rows && rows[k] == Row(was[k].pair, was[k].createdAt, false, Some(now))
         else
           && (k in rows <==> was[k].retiredAt.Some? && now - was[k].retiredAt.value < 3_600_000_000)
           && (k in rows ==> rows[k] == was[k])
  }

  /** The keys no longer signing go when their hour is over, and no others. */
  predicate OnlyOverdueGone(was: Table, rows: Table, now: int) {
    && (forall k | k in was ::
          k in rows <==> was[k].active || (was[k].retiredAt.Some? && now - was[k].retiredAt.value < 3_600_000_000))
    && forall k | k in rows :: k in was && rows[k] == was[k]
  }

  lemma RotateFates(fates: Fates, discardOld: bool, kid: string, pair: nat, now: int)
    ensures RotatedFates(fates, FatesAfterRotate(fates, discardOld, kid, pair, now), discardOld, kid, pair, now)
  {
  }

  lemma RotateRows(rows: Table, fates: Fates, after: Table, discardOld: bool, kid: string, pair: nat, now: int)
    requires after == Purged(Retired(rows, discardOld, now)[kid := Row(pair, now, true, None)], now)
    ensures RotatedRows(rows, after, discardOld, kid, pair, now)
  {
  }

  lemma PurgeFaithful(rows: Table, fates: Fates, clock: int, now: int)
    requires Faithful(rows, fates, clock) && clock <= now
    ensures Faithful(Purged(rows, now), fates, now)
  {
    forall k | Belongs(fates, k, now)
      ensures k in Purged(rows, now)
    {
      assert Belongs(fates, k, clock);
    }
  }

  lemma RotateFaithful(rows: Table, fates: Fates, clock: int, discardOld: bool, kid: string, pair: nat, now: int)
    requires Faithful(rows, fates, clock) && clock <= now && kid !in fates
    ensures Faithful(Retired(rows, discardOld, now)[kid := Row(pair, now, true, None)],
                     FatesAfterRotate(fates, discardOld, kid, pair, now), now)
  {
    var rows' := Retired(rows, discardOld, now)[kid := Row(pair, now, true, None)];
    var fates' := FatesAfterRotate(fates, discardOld, kid, pair, now);
    forall k | Belongs(fates', k, now)
      ensures k in rows'
    {
      if k != kid {
        assert Belongs(fates, k, clock);
      }
    }
  }

  lemma RotateIssuedWell(issues: set<Issue>, fates: Fates, clock: int, discardOld: bool, kid: string, pair: nat,
                         now: int)
    requires IssuedWell(issues, fates, clock) && clock <= now && kid !in fates
    ensures IssuedWell(issues, FatesAfterRotate(fates, discardOld, kid, pair, now), now)
  {
  }

  /** A first key, where none is live, starts a history of its own. */
  lemma FirstKeyFaithful(rows: Table, fates: Fates, issues: set<Issue>, clock: int, kid: string, pair: nat, now: int)
    requires Faithful(rows, fates, now) && IssuedWell(issues, fates, clock) && clock <= now && kid !in fates
    requires forall k | k in rows :: !rows[k].active
    ensures Faithful(rows[kid := Row(pair, now, true, None)], fates[kid := Fate(pair, None, false)], now)
    ensures IssuedWell(issues, fates[kid := Fate(pair, None, false)], now)
    ensures forall k :: !Live(fates, k)
  {
    forall k | Live(fates, k)
      ensures false
    {
      assert Belongs(fates, k, now);
    }
  }

  /** The JWKS at any moment is exactly the keys that belong by history, whatever the
      purges removed and whenever they ran. */
  lemma JwksIsHistory(rows: Table, fates: Fates, clock: int, now: int)
    requires Faithful(rows, fates, clock) && clock <= now
    ensures var jwks := JwksOf(PublishedRows(rows), now);
            forall k :: (k in jwks <==> Belongs(fates, k, now)) && (k in jwks ==> jwks[k] == fates[k].pair)
  {
    forall k | Belongs(fates, k, now)
      ensures k in rows
    {
      assert Belongs(fates, k, clock);
    }
  }

  /** Before its expiry a token verifies, unless the key that signed it was discarded;
      and then it does not. */
  lemma VerifiesUntilExpiry(rows: Table, fates: Fates, issues: set<Issue>, clock: int, now: int, i: Issue)
    requires Faithful(rows, fates, clock) && IssuedWell(issues, fates, clock) && clock <= now
    requires i in issues && now < i.token.exp * SECOND
    ensures Verifies(JwksOf(PublishedRows(rows), now), i.token) <==> !fates[i.token.kid].discarded
  {
    JwksIsHistory(rows, fates, clock, now);
    assert i.at / SECOND * SECOND <= i.at;
    assert now < i.at + TOKEN_TTL_SECONDS * SECOND;
  }

  // ----- the module's globals and its table -----

  class KeyStore {
    var rows: Table
    var activeKid: Option<string>
    var privateKey: Option<nat>
    var published: map<string, Published>
    ghost var fates: Fates
    ghost var issues: set<Issue>
    ghost var clock: int

    /** The globals, once loaded, agree with the table. */
    ghost predicate Loaded()
      reads this
    {
      && activeKid.Some? && activeKid.value in rows && rows[activeKid.value].active
      && privateKey == Some(rows[activeKid.value].pair)
      && published == PublishedRows(rows)
    }

    ghost predicate Valid()
      reads this
    {
      && Faithful(rows, fates, clock) && IssuedWell(issues, fates, clock) && 0 <= clock
      && (activeKid.Some? || privateKey.Some? ==> Loaded())
    }

    /** Exactly one key is active, and the globals hold it. */
    ghost predicate OneActive()
      reads this
    {
      Loaded() && forall k | k in rows && rows[k].active :: k == activeKid.value
    }

    constructor ()
      ensures Valid() && rows == map[] && issues == {} && fates == map[]
    {
      rows, activeKid, privateKey, published := map[], None, None, map[];
      fates, issues, clock := map[], {}, 0;
    }

    /** A process restart: the table stays, the globals are gone. */
    method Restart()
      requires Valid()
      modifies this`activeKid, this`privateKey, this`published
      ensures Valid() && activeKid.None? && privateKey.None? && published == map[]
    {
      activeKid, privateKey, published := None, None, map[];
    }

    /** `_load`: one pass over the rows, the active one into the globals. */
    method Load()
      requires Faithful(rows, fates, clock)
      modifies this`activeKid, this`privateKey, this`published
      ensures published == PublishedRows(rows)
      ensures (exists k :: k in rows && rows[k].active) ==> OneActive()
      ensures (forall k | k in rows :: !rows[k].active) ==> activeKid == old(activeKid) && privateKey == old(privateKey)
    {
      var unseen := rows.Keys;
      var loaded: map<string, Published> := map[];
      assert OneActiveAtMost(rows) by {
        assert forall k | k in rows && rows[k].active :: Live(fates, k);
      }
      while unseen != {}
        invariant unseen <= rows.Keys
        invariant loaded == map k | k in rows && k !in unseen :: Published(rows[k].pair, rows[k].retiredAt)
        invariant forall k | k in rows && rows[k].active && k !in unseen ::
                    activeKid == Some(k) && privateKey == Some(rows[k].pair)
        invariant (forall k | k in rows && rows[k].active :: k in unseen) ==>
                    activeKid == old(activeKid) && privateKey == old(privateKey)
        decreases unseen
      {
        var kid :| kid in unseen;
        if rows[kid].active {
          activeKid, privateKey := Some(kid), Some(rows[kid].pair);
        }
        loaded := loaded[kid := Published(rows[kid].pair, rows[kid].retiredAt)];
        unseen := unseen - {kid};
      }
      published := loaded;
    }

    /** On start-up: the stored key is taken up again, or a first one is made. */
    method EnsureSigningKey(kid: string, pair: nat, now: int)
      requires Valid() && clock <= now && kid !in fates
      modifies this
      ensures Valid() && clock == now && issues == old(issues) && OneActive()
      ensures fates == if exists k :: Live(old(fates), k) then old(fates)
                       else old(fates)[kid := Fate(pair, None, false)]
      ensures OnlyOverdueGone(old(rows), rows - {kid}, now)
      ensures kid in rows <==> forall k | k in old(rows) :: !old(rows)[k].active
      ensures kid in rows ==> rows[kid] == Row(pair, now, true, None)
    {
      KeyAtHand(kid, pair, now);
      Load();
    }

    /** The statements of that on the table, up to its commit. */
    method KeyAtHand(kid: string, pair: nat, now: int)
      requires Faithful(rows, fates, clock) && IssuedWell(issues, fates, clock) && clock <= now && kid !in fates
      modifies this`rows, this`fates, this`clock
      ensures clock == now && Faithful(rows, fates, clock) && IssuedWell(issues, fates, clock)
      ensures fates == if exists k :: Live(old(fates), k) then old(fates)
                       else old(fates)[kid := Fate(pair, None, false)]
      ensures exists k :: k in rows && rows[k].active
      ensures OnlyOverdueGone(old(rows), rows - {kid}, now)
      ensures kid in rows <==> forall k | k in old(rows) :: !old(rows)[k].active
      ensures kid in rows ==> rows[kid] == Row(pair, now, true, None)
    {
      PurgeFaithful(rows, fates, clock, now);
      rows := Purged(rows, now);
      if forall k | k in rows :: !rows[k].active {
        FirstKeyFaithful(rows, fates, issues, clock, kid, pair, now);
        rows := rows[kid := Row(pair, now, true, None)];
        fates := fates[kid := Fate(pair, None, false)];
        assert rows[kid].active;
      } else {
        var k :| k in rows && rows[k].active;
        assert Live(fates, k);
      }
      clock := now;
    }

    /** A rotation signs with the fresh key at once; the old one is retired, or gone. */
    method RotateSigningKey(discardOld: bool, kid: string, pair: nat, now: int) returns (active: Option<string>)
      requires Valid() && clock <= now && kid !in fates
      modifies this
      ensures Valid() && clock == now && issues == old(issues) && OneActive() && activeKid == active == Some(kid)
      ensures fates == FatesAfterRotate(old(fates), discardOld, kid, pair, now)
      ensures RotatedFates(old(fates), fates, discardOld, kid, pair, now)
      ensures RotatedRows(old(rows), rows, discardOld, kid, pair, now)
      ensures forall i | i in issues && Live(old(fates), i.token.kid) && now < i.token.exp * SECOND ::
                Verifies(JwksOf(published, now), i.token) <==> !discardOld
    {
      ghost var was := fates;
      ReplaceKey(discardOld, kid, pair, now);
      Load();
      assert Live(fates, kid) && Live(fates, activeKid.value);
      active := activeKid;
      forall i | i in issues && Live(was, i.token.kid) && now < i.token.exp * SECOND
        ensures Verifies(JwksOf(published, now), i.token) <==> !discardOld
      {
        VerifiesUntilExpiry(rows, fates, issues, clock, now, i);
      }
    }

    /** The statements of a rotation on the table, up to its commit. */
    method ReplaceKey(discardOld: bool, kid: string, pair: nat, now: int)
      requires Faithful(rows, fates, clock) && IssuedWell(issues, fates, clock) && clock <= now && kid !in fates
      modifies this`rows, this`fates, this`clock
      ensures clock == now && Faithful(rows, fates, clock) && IssuedWell(issues, fates, clock)
      ensures fates == FatesAfterRotate(old(fates), discardOld, kid, pair, now)
      ensures RotatedFates(old(fates), fates, discardOld, kid, pair, now)
      ensures RotatedRows(old(rows), rows, discardOld, kid, pair, now)
    {
      ghost var was, before := fates, rows;
      RotateFates(fates, discardOld, kid, pair, now);
      RotateFaithful(rows, fates, clock, discardOld, kid, pair, now);
      RotateIssuedWell(issues, fates, clock, discardOld, kid, pair, now);
      rows := Retired(rows, discardOld, now);
      rows := rows[kid := Row(pair, now, true, None)];
      fates := FatesAfterRotate(fates, discardOld, kid, pair, now);
      clock := now;
      PurgeFaithful(rows, fates, clock, now);
      rows := Purged(rows, now);
      RotateRows(before, was, rows, discardOld, kid, pair, now);
    }

    /** The periodic purge changes no key's fate, so no answer below. */
    method PurgeRetiredKeys(now: int)
      requires Valid() && clock <= now
      modifies this
      ensures Valid() && clock == now && issues == old(issues) && fates == old(fates)
      ensures old(OneActive()) ==> OneActive() && activeKid == old(activeKid)
      ensures OnlyOverdueGone(old(rows), rows, now)
    {
      PurgeFaithful(rows, fates, clock, now);
      ghost var was := activeKid;
      rows := Purged(rows, now);
      clock := now;
      Load();
      assert forall k | k in rows && rows[k].active :: Live(fates, k);
      assert was.Some? ==> Live(fates, was.value);
    }

    /** `build_id_token`; None is the RuntimeError of a key never loaded. */
    method BuildIdToken(now: int) returns (token: Option<Token>)
      requires Valid() && clock <= now
      modifies this`issues, this`clock
      ensures Valid() && clock == now
      ensures token.None? <==> activeKid.None?
      ensures token.Some? ==> token.value.kid == activeKid.value && token.value.exp == now / 1_000_000 + 300
      ensures issues == old(issues) + (if token.Some? then {Issue(token.value, now)} else {})
    {
      clock := now;
      assert forall k | Belongs(fates, k, now) :: Belongs(fates, k, old(clock));
      if privateKey.None? {
        return None;
      }
      token := Some(Token(activeKid.value, privateKey.value, now / SECOND + TOKEN_TTL_SECONDS));
      issues := issues + {Issue(token.value, now)};
    }

    /** The published keys, and with them the verdict on every token issued so far that
        has not expired: it verifies exactly when its key was not discarded. */
    method GetJwks(now: int) returns (jwks: Option<Jwks>)
      requires Valid() && clock <= now
      ensures jwks.None? <==> activeKid.None?
      ensures jwks.Some? ==> forall k ::
                && (k in jwks.value <==>
                      && k in fates && !fates[k].discarded
                      && (fates[k].retired.Some? ==> now - fates[k].retired.value < 3_600_000_000))
                && (k in jwks.value ==> jwks.value[k] == fates[k].pair)
      ensures jwks.Some? ==> forall i | i in issues && now < i.token.exp * SECOND ::
                Verifies(jwks.value, i.token) <==> !fates[i.token.kid].discarded
    {
      if privateKey.None? {
        return None;
      }
      JwksIsHistory(rows, fates, clock, now);
      forall i | i in issues && now < i.token.exp * SECOND
        ensures Verifies(JwksOf(published, now), i.token) <==> !fates[i.token.kid].discarded
      {
        VerifiesUntilExpiry(rows, fates, issues, clock, now, i);
      }
      jwks := Some(JwksOf(published, now));
    }
  }
}
