/** `app/ha_client.py`: the action names baked into a notification, and the dict
    of futures that a button press resolves. */
module ActionRegistry {
  import opened Options

  const APPROVE := "approve_login_"
  const REJECT := "reject_login_"

  function ActionName(requestId: string, approved: bool): string {
    (if approved then APPROVE else REJECT) + requestId
  }

  /** What `_resolve_action` reads out of an incoming action string. */
  function Parse(action: string): Option<(string, bool)> {
    if APPROVE <= action then Some((action[|APPROVE|..], true))
    else if REJECT <= action then Some((action[|REJECT|..], false))
    else None
  }

  /** A string parses to an id and a verdict exactly when it is the name built for
      that id and that verdict. */
  lemma ParseInvertsActionName(action: string, requestId: string, approved: bool)
    ensures Parse(action) == Some((requestId, approved)) <==> action == ActionName(requestId, approved)
  {
    var name := ActionName(requestId, approved);
    if approved {
      assert name[|APPROVE|..] == requestId;
    } else {
      assert name[0] == 'r' && APPROVE[0] == 'a';
      assert name[|REJECT|..] == requestId;
    }
    if Parse(action) == Some((requestId, approved)) {
      assert action == (if approved then APPROVE else REJECT) + requestId;
    }
  }

  /** An `asyncio` future as `wait_for_action` uses it: not done, resolved with a
      verdict, or cancelled by its own timeout. */
  datatype FutureState = Unset | Resolved(approved: bool) | Cancelled

  class Future {
    var state: FutureState

    constructor ()
      ensures state == Unset
    {
      state := Unset;
    }
  }

  /** The module dict `_pending`. `waiting` is the history of who is still inside
      `wait_for_action`: each future whose waiter has not exited, with its id. */
  class Registry {
    var pending: map<string, Future>
    ghost var waiting: map<Future, string>

    /** A registered future belongs to a waiter of that very id that has not exited. */
    ghost predicate Valid()
      reads this
    {
      forall id | id in pending :: pending[id] in waiting && waiting[pending[id]] == id
    }

    constructor ()
      ensures Valid() && pending == map[] && waiting == map[]
    {
      pending := map[];
      waiting := map[];
    }

    /** `wait_for_action` up to its await. A later waiter takes over the id's entry. */
    method Register(requestId: string) returns (fut: Future)
      requires Valid()
      modifies this
      ensures Valid() && fresh(fut) && fut.state == Unset
      ensures pending == old(pending)[requestId := fut]
      ensures waiting == old(waiting)[fut := requestId]
    {
      fut := new Future();
      pending := pending[requestId := fut];
      waiting := waiting[fut := requestId];
    }

    /** `_resolve_action`: only the first action for an id reaches its future; every
        other future, and a future already done, is left as it was. */
    method Resolve(action: string)
      requires Valid()
      modifies waiting.Keys
      ensures Valid()
      ensures forall f | f in waiting ::
        f.state == (if old(f.state) == Unset && waiting[f] in pending && pending[waiting[f]] == f
                       && Parse(action).Some? && Parse(action).value.0 == waiting[f]
                    then Resolved(Parse(action).value.1) else old(f.state))
    {
      var parsed: Option<(string, bool)>;
      if APPROVE <= action {
        parsed := Some((action[|APPROVE|..], true));
      } else if REJECT <= action {
        parsed := Some((action[|REJECT|..], false));
      } else {
        return;
      }
      if parsed.value.0 in pending {
        var fut := pending[parsed.value.0];
        if fut.state == Unset {
          fut.state := Resolved(parsed.value.1);
        }
      }
    }

    /** The `finally` of `wait_for_action`. `expired` says the timer fired first: it
        cancels an unset future, and it wins even over a result that arrived before
        the waiter could be resumed. The answer is None exactly then. */
    method Exit(requestId: string, fut: Future, expired: bool) returns (verdict: Option<bool>)
      requires Valid() && fut in waiting && waiting[fut] == requestId
      requires expired || fut.state.Resolved?
      modifies this, fut
      ensures Valid() && waiting == old(waiting) - {fut}
      ensures pending == (if requestId in old(pending) && old(pending)[requestId] == fut
                          then old(pending) - {requestId} else old(pending))
      ensures expired ==> verdict == None && fut.state != Unset
      ensures !expired ==> verdict == Some(old(fut.state).approved) && fut.state == old(fut.state)
    {
      if expired {
        if fut.state == Unset {
          fut.state := Cancelled;
        }
        verdict := None;
      } else {
        verdict := Some(fut.state.approved);
      }
      if requestId in pending && pending[requestId] == fut {
        pending := pending - {requestId};
      }
      waiting := waiting - {fut};
    }
  }
}
