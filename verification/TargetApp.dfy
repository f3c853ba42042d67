/** `_names_by_client_id` of `app/target_app.py`: the project events replayed into a
    table from client_id to application name, and what that table means. */
module TargetApp {
  import opened Options

  const MAX_NAME := 80

  datatype Kind = Added | Changed | OidcAdded | OidcChanged | Removed | Unrelated
  /** One event; a field that is absent and one that is the empty string both count as
      no news, except for the list of redirect URIs, which may be empty. */
  datatype Event = Event(kind: Kind, app: string, name: string, clientId: string, redirectUris: Option<seq<string>>)
  type HostOf = string -> Option<string>

  /** The three things an event may tell about an application. */
  datatype News = Name | ClientId | Uris

  predicate Tells(e: Event, app: string, news: News) {
    e.app == app && app != "" &&
    match news
    case Name => e.kind in {Added, Changed} && e.name != ""
    case ClientId => e.kind in {OidcAdded, OidcChanged} && e.clientId != ""
    case Uris => e.kind in {OidcAdded, OidcChanged} && e.redirectUris.Some?
  }

  predicate Removes(e: Event, app: string) {
    e.app == app && app != "" && e.kind == Removed
  }

  function Cut(name: string): string {
    if |name| <= MAX_NAME then name else name[..MAX_NAME]
  }

  function Hosts(uris: seq<string>, hostOf: HostOf): set<string> {
    set u | u in uris && hostOf(u).Some? && hostOf(u).value != "" :: hostOf(u).value
  }

  // ----- the meaning, said of the whole history -----

  predicate RemovedIn(events: seq<Event>, lo: nat, hi: nat, app: string)
    requires hi <= |events|
  {
    exists j :: lo <= j < hi && Removes(events[j], app)
  }

  predicate ToldIn(events: seq<Event>, lo: nat, hi: nat, app: string, news: News)
    requires hi <= |events|
  {
    exists j :: lo <= j < hi && Tells(events[j], app, news)
  }

  /** Event `i` is the last word on that news, and the application was not removed since. */
  predicate Standing(events: seq<Event>, app: string, news: News, i: nat) {
    && i < |events| && Tells(events[i], app, news)
    && !ToldIn(events, i + 1, |events|, app, news) && !RemovedIn(events, i + 1, |events|, app)
  }

  /** Event `i` gave the application its first client_id since it was last removed. */
  predicate Born(events: seq<Event>, app: string, i: nat) {
    && i < |events| && Tells(events[i], app, ClientId) && !RemovedIn(events, i + 1, |events|, app)
    && forall j :: 0 <= j < i && Tells(events[j], app, ClientId) ==> RemovedIn(events, j + 1, i, app)
  }

  /** The event with the last word on that news, while the application lives. */
  ghost predicate Stands(events: seq<Event>, app: string, news: News, e: Event) {
    exists i: nat :: Standing(events, app, news, i) && events[i] == e
  }

  /** A live application with a name, holding the client_id `c`. */
  ghost predicate Holds(events: seq<Event>, app: string, c: string) {
    && (exists e :: Stands(events, app, ClientId, e) && e.clientId == c)
    && (exists e :: Stands(events, app, Name, e))
  }

  /** Of several holders of a client_id, the one that came to have a client_id last. */
  ghost predicate Owns(events: seq<Event>, app: string, c: string) {
    && Holds(events, app, c)
    && forall other, i, j ::
         Holds(events, other, c) && other != app && Born(events, other, i) && Born(events, app, j) ==> i < j
  }

  /** Two of the URIs have hosts, and different ones. */
  predicate SpanHosts(uris: seq<string>, hostOf: HostOf) {
    exists u, v | u in uris && v in uris ::
      hostOf(u).Some? && hostOf(u).value != "" && hostOf(v).Some? && hostOf(v).value != "" && hostOf(u) != hostOf(v)
  }

  lemma SpanExactlyWhen(uris: seq<string>, hostOf: HostOf)
    ensures |Hosts(uris, hostOf)| > 1 <==> SpanHosts(uris, hostOf)
  {
    var hosts := Hosts(uris, hostOf);
    if |hosts| > 1 {
      var a :| a in hosts;
      assert |hosts - {a}| > 0;
      var b :| b in hosts - {a};
      var u :| u in uris && hostOf(u) == Some(a);
      var v :| v in uris && hostOf(v) == Some(b);
    } else if SpanHosts(uris, hostOf) {
      var u, v :| u in uris && v in uris && hostOf(u).Some? && hostOf(u).value != ""
                  && hostOf(v).Some? && hostOf(v).value != "" && hostOf(u) != hostOf(v);
      var both := {hostOf(u).value, hostOf(v).value};
      assert both <= hosts && |both| == 2;
      Fewer(both, hosts);
    }
  }

  lemma {:induction false} Fewer(a: set<string>, b: set<string>)
    requires a <= b
    ensures |a| <= |b|
  {
    if a != {} {
      var x :| x in a;
      Fewer(a - {x}, b - {x});
    }
  }

  ghost predicate ManyHosts(events: seq<Event>, app: string, hostOf: HostOf) {
    exists e :: Stands(events, app, Uris, e) && e.redirectUris.Some? && SpanHosts(e.redirectUris.value, hostOf)
  }

  /** The name as the notification shows it: its first 80 characters, or all of it. */
  predicate ShownAs(name: string, shown: string) {
    shown <= name && |shown| == if |name| <= 80 then |name| else 80
  }

  ghost predicate Shows(events: seq<Event>, app: string, hostOf: HostOf, shown: Option<string>) {
    if ManyHosts(events, app, hostOf) then shown.None?
    else exists e :: Stands(events, app, Name, e) && shown.Some? && ShownAs(e.name, shown.value)
  }

  // ----- the last word, computed along the history -----

  function LastWord(events: seq<Event>, app: string, news: News): (r: Option<nat>)
    ensures r.Some? ==> r.value < |events|
  {
    if events == [] then None
    else
      var n := |events| - 1;
      if Tells(events[n], app, news) then Some(n)
      else if Removes(events[n], app) then None
      else LastWord(events[..n], app, news)
  }

  /** When each application that has a client_id first got it. */
  function Births(events: seq<Event>): (r: map<string, nat>)
    ensures forall app | app in r :: r[app] < |events|
  {
    if events == [] then map[]
    else
      var n := |events| - 1;
      var e, before := events[n], Births(events[..n]);
      if Removes(e, e.app) then before - {e.app}
      else if Tells(e, e.app, ClientId) && e.app !in before then before[e.app := n]
      else before
  }

  lemma OneMore(prefix: seq<Event>, e: Event, app: string)
    ensures forall news :: LastWord(prefix + [e], app, news) ==
                           if Tells(e, app, news) then Some(|prefix|)
                           else if Removes(e, app) then None else LastWord(prefix, app, news)
  {
    assert (prefix + [e])[..|prefix|] == prefix;
  }

  lemma {:induction false} LastWordStands(events: seq<Event>, app: string, news: News, i: nat)
    ensures Standing(events, app, news, i) <==> LastWord(events, app, news) == Some(i)
  {
    if events != [] {
      var n := |events| - 1;
      var prefix := events[..n];
      LastWordStands(prefix, app, news, i);
      OneMore(prefix, events[n], app);
      assert events == prefix + [events[n]];
      if i < n {
        Extend(prefix, events[n], i + 1, app);
      } else if i == n {
        assert !ToldIn(events, n + 1, n + 1, app, news) && !RemovedIn(events, n + 1, n + 1, app);
      }
    }
  }

  /** One more event told or removed is one more that was told or removed since. */
  lemma Extend(prefix: seq<Event>, e: Event, lo: nat, app: string)
    requires lo <= |prefix|
    ensures RemovedIn(prefix + [e], lo, |prefix| + 1, app) <==> RemovedIn(prefix, lo, |prefix|, app) || Removes(e, app)
    ensures forall news :: ToldIn(prefix + [e], lo, |prefix| + 1, app, news) <==>
                           ToldIn(prefix, lo, |prefix|, app, news) || Tells(e, app, news)
    ensures forall j, k | 0 <= j <= k <= |prefix| ::
              RemovedIn(prefix + [e], j, k, app) <==> RemovedIn(prefix, j, k, app)
  {
    var events := prefix + [e];
    assert events[|prefix|] == e;
    forall j, k | 0 <= j <= k <= |prefix|
      ensures RemovedIn(events, j, k, app) <==> RemovedIn(prefix, j, k, app)
    {
      assert forall l :: j <= l < k ==> events[l] == prefix[l];
    }
    forall news
      ensures ToldIn(events, lo, |prefix| + 1, app, news)
              <==> ToldIn(prefix, lo, |prefix|, app, news) || Tells(e, app, news)
    {
      assert forall l :: lo <= l < |prefix| ==> events[l] == prefix[l];
    }
  }

  lemma {:induction false} BirthIsBorn(events: seq<Event>, app: string, i: nat)
    ensures Born(events, app, i) <==> app in Births(events) && Births(events)[app] == i
    ensures app in Births(events) <==> LastWord(events, app, ClientId).Some?
  {
    if events != [] {
      var n := |events| - 1;
      var prefix := events[..n];
      BirthIsBorn(prefix, app, i);
      assert events == prefix + [events[n]];
      if i < n {
        Extend(prefix, events[n], i + 1, app);
      } else if i == n {
        Extend(prefix, events[n], n, app);
        if Tells(events[n], app, ClientId) {
          BirthAtTheEnd(prefix, events[n], app);
        }
      }
    }
  }

  lemma BirthAtTheEnd(prefix: seq<Event>, e: Event, app: string)
    requires Tells(e, app, ClientId)
    ensures Born(prefix + [e], app, |prefix|) <==> app !in Births(prefix)
  {
    var events := prefix + [e];
    var n := |prefix|;
    assert events[n] == e;
    Extend(prefix, e, n, app);
    if app in Births(prefix) {
      var i := Births(prefix)[app];
      BirthIsBorn(prefix, app, i);
      assert events[i] == prefix[i] && !RemovedIn(events, i + 1, n, app);
    } else {
      forall j | 0 <= j < n && Tells(events[j], app, ClientId)
        ensures RemovedIn(events, j + 1, n, app)
      {
        BirthIsBorn(prefix, app, 0);
        if !RemovedIn(prefix, j + 1, n, app) {
          SomethingStands(prefix, app, j);
        }
      }
    }
  }

  lemma {:induction false} SomethingStands(events: seq<Event>, app: string, j: nat)
    requires j < |events| && Tells(events[j], app, ClientId) && !RemovedIn(events, j + 1, |events|, app)
    ensures LastWord(events, app, ClientId).Some?
  {
    var n := |events| - 1;
    if j < n {
      assert events == events[..n] + [events[n]];
      Extend(events[..n], events[n], j + 1, app);
      SomethingStands(events[..n], app, j);
    }
  }

  // ----- the events of other applications -----

  function Own(events: seq<Event>, app: string): seq<Event> {
    if events == [] then []
    else
      var n := |events| - 1;
      Own(events[..n], app) + if events[n].app == app then [events[n]] else []
  }

  function LastEvent(events: seq<Event>, app: string, news: News): Option<Event> {
    match LastWord(events, app, news)
    case Some(i) => Some(events[i])
    case None => None
  }

  lemma {:induction false} OwnLastEvent(events: seq<Event>, app: string, news: News)
    ensures LastEvent(Own(events, app), app, news) == LastEvent(events, app, news)
  {
    if events != [] {
      var n := |events| - 1;
      var own := Own(events[..n], app);
      OwnLastEvent(events[..n], app, news);
      OneMore(events[..n], events[n], app);
      OneMore(own, events[n], app);
      assert events == events[..n] + [events[n]];
      assert own + [] == own;
    }
  }

  lemma LastEventStands(events: seq<Event>, app: string, news: News, e: Event)
    ensures Stands(events, app, news, e) <==> LastEvent(events, app, news) == Some(e)
  {
    forall i: nat
      ensures Standing(events, app, news, i) <==> LastWord(events, app, news) == Some(i)
    {
      LastWordStands(events, app, news, i);
    }
    if LastEvent(events, app, news) == Some(e) {
      assert Standing(events, app, news, LastWord(events, app, news).value);
    }
  }

  /** Whether an application holds a client_id, and what would be shown for it, is up to
      its own events alone. */
  lemma OthersDoNotMatter(events: seq<Event>, app: string, hostOf: HostOf, c: string, shown: Option<string>)
    ensures Holds(Own(events, app), app, c) <==> Holds(events, app, c)
    ensures Shows(Own(events, app), app, hostOf, shown) <==> Shows(events, app, hostOf, shown)
  {
    forall news, e
      ensures Stands(Own(events, app), app, news, e) <==> Stands(events, app, news, e)
    {
      OwnLastEvent(events, app, news);
      LastEventStands(events, app, news, e);
      LastEventStands(Own(events, app), app, news, e);
    }
  }

  lemma HolderIsBorn(events: seq<Event>, app: string, c: string)
    requires Holds(events, app, c)
    ensures app in Births(events) && Born(events, app, Births(events)[app])
  {
    var e :| Stands(events, app, ClientId, e);
    LastEventStands(events, app, ClientId, e);
    BirthIsBorn(events, app, 0);
    BirthIsBorn(events, app, Births(events)[app]);
  }

  /** No two applications own the same client_id. */
  lemma OneOwner(events: seq<Event>, a: string, b: string, c: string)
    requires Owns(events, a, c) && Owns(events, b, c)
    ensures a == b
  {
    HolderIsBorn(events, a, c);
    HolderIsBorn(events, b, c);
  }

  // ----- the three dicts of the replay, against the last words -----

  predicate NameKept(events: seq<Event>, names: map<string, string>, app: string) {
    match LastWord(events, app, Name)
    case Some(i) => app in names && names[app] == Cut(events[i].name)
    case None => app !in names
  }

  predicate ClientKept(events: seq<Event>, clientIds: map<string, string>, app: string) {
    match LastWord(events, app, ClientId)
    case Some(i) => app in clientIds && clientIds[app] == events[i].clientId
    case None => app !in clientIds
  }

  predicate HostsKept(events: seq<Event>, hosts: map<string, set<string>>, hostOf: HostOf, app: string) {
    match LastWord(events, app, Uris)
    case Some(i) =>
      Tells(events[i], app, Uris) && app in hosts && hosts[app] == Hosts(events[i].redirectUris.value, hostOf)
    case None => app !in hosts
  }

  ghost predicate Kept(events: seq<Event>, names: map<string, string>, clientIds: map<string, string>,
                       hosts: map<string, set<string>>, hostOf: HostOf)
  {
    forall app :: AppKept(events, names, clientIds, hosts, hostOf, app)
  }

  predicate AppKept(events: seq<Event>, names: map<string, string>, clientIds: map<string, string>,
                    hosts: map<string, set<string>>, hostOf: HostOf, app: string)
  {
    NameKept(events, names, app) && ClientKept(events, clientIds, app) && HostsKept(events, hosts, hostOf, app)
  }

  // What one event does to each dict.

  function NamesAfter(names: map<string, string>, e: Event): map<string, string> {
    if Tells(e, e.app, Name) then names[e.app := Cut(e.name)]
    else if Removes(e, e.app) then names - {e.app} else names
  }

  function ClientIdsAfter(clientIds: map<string, string>, e: Event): map<string, string> {
    if Tells(e, e.app, ClientId) then clientIds[e.app := e.clientId]
    else if Removes(e, e.app) then clientIds - {e.app} else clientIds
  }

  function HostsAfter(hosts: map<string, set<string>>, e: Event, hostOf: HostOf): map<string, set<string>> {
    if Tells(e, e.app, Uris) then hosts[e.app := Hosts(e.redirectUris.value, hostOf)]
    else if Removes(e, e.app) then hosts - {e.app} else hosts
  }

  function OrderAfter(order: seq<string>, clientIds: map<string, string>, e: Event): seq<string> {
    if Removes(e, e.app) then Without(order, e.app)
    else if Tells(e, e.app, ClientId) && e.app !in clientIds then order + [e.app] else order
  }

  lemma NameStep(prefix: seq<Event>, e: Event, names: map<string, string>, app: string)
    requires NameKept(prefix, names, app)
    ensures NameKept(prefix + [e], NamesAfter(names, e), app)
  {
    OneMore(prefix, e, app);
  }

  lemma ClientStep(prefix: seq<Event>, e: Event, clientIds: map<string, string>, app: string)
    requires ClientKept(prefix, clientIds, app)
    ensures ClientKept(prefix + [e], ClientIdsAfter(clientIds, e), app)
  {
    OneMore(prefix, e, app);
  }

  lemma HostsStep(prefix: seq<Event>, e: Event, hosts: map<string, set<string>>, hostOf: HostOf, app: string)
    requires HostsKept(prefix, hosts, hostOf, app)
    ensures HostsKept(prefix + [e], HostsAfter(hosts, e, hostOf), hostOf, app)
  {
    OneMore(prefix, e, app);
  }

  lemma KeptStep(prefix: seq<Event>, e: Event, names: map<string, string>, clientIds: map<string, string>,
                 hosts: map<string, set<string>>, hostOf: HostOf)
    requires Kept(prefix, names, clientIds, hosts, hostOf)
    ensures Kept(prefix + [e], NamesAfter(names, e), ClientIdsAfter(clientIds, e), HostsAfter(hosts, e, hostOf), hostOf)
  {
    forall app
      ensures AppKept(prefix + [e], NamesAfter(names, e), ClientIdsAfter(clientIds, e), HostsAfter(hosts, e, hostOf),
                      hostOf, app)
    {
      assert AppKept(prefix, names, clientIds, hosts, hostOf, app);
      NameStep(prefix, e, names, app);
      ClientStep(prefix, e, clientIds, app);
      HostsStep(prefix, e, hosts, hostOf, app);
    }
  }

  predicate Ascending(births: map<string, nat>, order: seq<string>) {
    order != [] ==>
      && order[0] in births && (forall x | x in order[1..] :: x in births && births[order[0]] < births[x])
      && Ascending(births, order[1..])
  }

  /** The dict's own order: the applications with a client_id, oldest birth first. */
  ghost predicate InOrder(births: map<string, nat>, order: seq<string>) {
    (forall app :: app in order <==> app in births) && Ascending(births, order)
  }

  lemma {:induction false} AscendingAt(births: map<string, nat>, order: seq<string>, p: nat, q: nat)
    requires Ascending(births, order) && p < q < |order|
    ensures order[p] in births && order[q] in births && births[order[p]] < births[order[q]]
  {
    if p == 0 {
      assert order[q] == order[1..][q - 1];
    } else {
      AscendingAt(births, order[1..], p - 1, q - 1);
    }
  }

  function Without(order: seq<string>, app: string): (r: seq<string>)
    ensures forall x :: x in r <==> x in order && x != app
  {
    if order == [] then []
    else if order[0] == app then Without(order[1..], app)
    else [order[0]] + Without(order[1..], app)
  }

  lemma {:induction false} WithoutAscending(births: map<string, nat>, order: seq<string>, app: string)
    requires Ascending(births, order)
    ensures Ascending(births - {app}, Without(order, app))
  {
    if order != [] {
      WithoutAscending(births, order[1..], app);
    }
  }

  lemma {:induction false} BornLast(births: map<string, nat>, order: seq<string>, app: string, n: nat)
    requires Ascending(births, order) && app !in order && (forall a | a in births :: births[a] < n)
    ensures Ascending(births[app := n], order + [app])
  {
    if order != [] {
      BornLast(births, order[1..], app, n);
      assert (order + [app])[1..] == order[1..] + [app];
      assert order[0] in order;
    } else {
      var one := order + [app];
      assert one[1..] == [] && Ascending(births[app := n], one[1..]);
    }
  }

  lemma OrderStep(prefix: seq<Event>, e: Event, order: seq<string>, names: map<string, string>,
                  clientIds: map<string, string>, hosts: map<string, set<string>>, hostOf: HostOf)
    requires InOrder(Births(prefix), order) && Kept(prefix, names, clientIds, hosts, hostOf)
    ensures InOrder(Births(prefix + [e]), OrderAfter(order, clientIds, e))
  {
    assert (prefix + [e])[..|prefix|] == prefix;
    BirthIsBorn(prefix, e.app, 0);
    assert AppKept(prefix, names, clientIds, hosts, hostOf, e.app);
    WithoutAscending(Births(prefix), order, e.app);
    if e.app !in order {
      BornLast(Births(prefix), order, e.app, |prefix|);
    }
  }

  /** Of the first so many applications in order, `p` is the last to hold `c` and a name. */
  predicate LastNamed(order: seq<string>, names: map<string, string>, clientIds: map<string, string>, c: string,
                      p: nat) {
    && p < |order| && order[p] in names && order[p] in clientIds && clientIds[order[p]] == c
    && forall q :: p < q < |order| && order[q] in names && order[q] in clientIds ==> clientIds[order[q]] != c
  }

  function ShownFor(app: string, names: map<string, string>, hosts: map<string, set<string>>): Option<string>
    requires app in names
  {
    if app in hosts && |hosts[app]| > 1 then None else Some(names[app])
  }

  /** The comprehension that ends the replay: the dict walked in its own order, a later
      application overwriting an earlier one that has the same client_id. */
  method ByClientId(names: map<string, string>, clientIds: map<string, string>, hosts: map<string, set<string>>,
                    order: seq<string>) returns (shown: map<string, Option<string>>, ghost owners: map<string, nat>)
    requires forall app | app in order :: app in clientIds
    ensures forall c | c in shown :: c in owners && LastNamed(order, names, clientIds, c, owners[c])
                                     && shown[c] == ShownFor(order[owners[c]], names, hosts)
    ensures forall p | 0 <= p < |order| && order[p] in names :: order[p] in clientIds && clientIds[order[p]] in shown
  {
    shown, owners := map[], map[];
    for k := 0 to |order|
      invariant forall c | c in shown :: c in owners && LastNamed(order[..k], names, clientIds, c, owners[c])
                                         && shown[c] == ShownFor(order[owners[c]], names, hosts)
      invariant forall p | 0 <= p < k && order[p] in names :: order[p] in clientIds && clientIds[order[p]] in shown
    {
      var app := order[k];
      assert app in order;
      if app in names {
        shown := shown[clientIds[app] := if app in hosts && |hosts[app]| > 1 then None else Some(names[app])];
        owners := owners[clientIds[app] := k];
      }
    }
    assert order[..|order|] == order;
  }

  /** In the replayed dicts, `Holds` is to have a client_id and a name. */
  lemma HoldsInDicts(events: seq<Event>, names: map<string, string>, clientIds: map<string, string>,
                     hosts: map<string, set<string>>, hostOf: HostOf, app: string, c: string)
    requires Kept(events, names, clientIds, hosts, hostOf)
    ensures Holds(events, app, c) <==> app in names && app in clientIds && clientIds[app] == c
    ensures app in names ==> Shows(events, app, hostOf, ShownFor(app, names, hosts))
    ensures app in clientIds <==> app in Births(events)
  {
    assert AppKept(events, names, clientIds, hosts, hostOf, app);
    BirthIsBorn(events, app, 0);
    forall news, e
      ensures Stands(events, app, news, e) <==> LastEvent(events, app, news) == Some(e)
    {
      LastEventStands(events, app, news, e);
    }
    if app in names {
      assert Stands(events, app, Name, events[LastWord(events, app, Name).value]);
      ShownInDicts(events, names, hosts, hostOf, app);
    }
    if app in clientIds {
      assert Stands(events, app, ClientId, events[LastWord(events, app, ClientId).value]);
    }
  }

  lemma ShownInDicts(events: seq<Event>, names: map<string, string>, hosts: map<string, set<string>>, hostOf: HostOf,
                     app: string)
    requires NameKept(events, names, app) && HostsKept(events, hosts, hostOf, app) && app in names
    ensures Shows(events, app, hostOf, ShownFor(app, names, hosts))
  {
    HostsInDicts(events, hosts, hostOf, app);
    var e := events[LastWord(events, app, Name).value];
    LastEventStands(events, app, Name, e);
    assert ShownAs(e.name, names[app]);
  }

  lemma HostsInDicts(events: seq<Event>, hosts: map<string, set<string>>, hostOf: HostOf, app: string)
    requires HostsKept(events, hosts, hostOf, app)
    ensures ManyHosts(events, app, hostOf) <==> app in hosts && |hosts[app]| > 1
  {
    forall e
      ensures Stands(events, app, Uris, e) <==> LastEvent(events, app, Uris) == Some(e)
    {
      LastEventStands(events, app, Uris, e);
    }
    if app in hosts {
      var e := events[LastWord(events, app, Uris).value];
      assert Stands(events, app, Uris, e);
      SpanExactlyWhen(e.redirectUris.value, hostOf);
    }
  }

  lemma OwnerOwns(events: seq<Event>, names: map<string, string>, clientIds: map<string, string>,
                  hosts: map<string, set<string>>, hostOf: HostOf, order: seq<string>, c: string, p: nat)
    requires Kept(events, names, clientIds, hosts, hostOf) && InOrder(Births(events), order)
    requires LastNamed(order, names, clientIds, c, p)
    ensures Owns(events, order[p], c)
  {
    HoldsInDicts(events, names, clientIds, hosts, hostOf, order[p], c);
    forall other, i, j |
      Holds(events, other, c) && other != order[p] && Born(events, other, i) && Born(events, order[p], j)
      ensures i < j
    {
      HoldsInDicts(events, names, clientIds, hosts, hostOf, other, c);
      BirthIsBorn(events, other, i);
      BirthIsBorn(events, order[p], j);
      assert other in order;
      var q :| 0 <= q < |order| && order[q] == other;
      AscendingAt(Births(events), order, q, p);
    }
  }

  ghost predicate Replayed(events: seq<Event>, names: map<string, string>, clientIds: map<string, string>,
                           hosts: map<string, set<string>>, hostOf: HostOf, order: seq<string>)
  {
    Kept(events, names, clientIds, hosts, hostOf) && InOrder(Births(events), order)
  }

  lemma ReplayStep(prefix: seq<Event>, e: Event, names: map<string, string>, clientIds: map<string, string>,
                   hosts: map<string, set<string>>, hostOf: HostOf, order: seq<string>)
    requires Replayed(prefix, names, clientIds, hosts, hostOf, order)
    ensures Replayed(prefix + [e], NamesAfter(names, e), ClientIdsAfter(clientIds, e),
                     HostsAfter(hosts, e, hostOf), hostOf, OrderAfter(order, clientIds, e))
  {
    KeptStep(prefix, e, names, clientIds, hosts, hostOf);
    OrderStep(prefix, e, order, names, clientIds, hosts, hostOf);
  }

  /** The loop over the events. Its four dicts, `order` being the order of `clientIds`. */
  method Replay(events: seq<Event>, hostOf: HostOf)
    returns (names: map<string, string>, clientIds: map<string, string>, hosts: map<string, set<string>>,
             order: seq<string>)
    ensures Replayed(events, names, clientIds, hosts, hostOf, order)
  {
    names, clientIds, hosts, order := map[], map[], map[], [];
    for i := 0 to |events|
      invariant Replayed(events[..i], names, clientIds, hosts, hostOf, order)
    {
      var e := events[i];
      ReplayStep(events[..i], e, names, clientIds, hosts, hostOf, order);
      ghost var names', clientIds' := NamesAfter(names, e), ClientIdsAfter(clientIds, e);
      ghost var hosts', order' := HostsAfter(hosts, e, hostOf), OrderAfter(order, clientIds, e);
      if e.app != "" {
        if e.kind in {Added, Changed} && e.name != "" {
          names := names[e.app := Cut(e.name)];
        } else if e.kind in {OidcAdded, OidcChanged} {
          if e.clientId != "" {
            order := if e.app in clientIds then order else order + [e.app];
            clientIds := clientIds[e.app := e.clientId];
          }
          if e.redirectUris.Some? {
            hosts := hosts[e.app := Hosts(e.redirectUris.value, hostOf)];
          }
        } else if e.kind == Removed {
          names, clientIds, hosts := names - {e.app}, clientIds - {e.app}, hosts - {e.app};
          order := Without(order, e.app);
        }
      }
      assert names == names' && clientIds == clientIds' && hosts == hosts' && order == order';
      assert events[..i + 1] == events[..i] + [e];
    }
    assert events[..|events|] == events;
  }

  /** The replay, and what its answer means: a client_id is in it when a live application
      with a name holds it, and the application that owns it decides what is shown. */
  method NamesByClientId(events: seq<Event>, hostOf: HostOf) returns (shown: map<string, Option<string>>)
    ensures forall c :: c in shown <==> exists app :: Holds(events, app, c)
    ensures forall c | c in shown :: exists app :: Owns(events, app, c) && Shows(events, app, hostOf, shown[c])
  {
    var names, clientIds, hosts, order := Replay(events, hostOf);
    forall app
      ensures app in order <==> app in clientIds
    {
      HoldsInDicts(events, names, clientIds, hosts, hostOf, app, "");
    }
    ghost var owners;
    shown, owners := ByClientId(names, clientIds, hosts, order);
    forall c | c in shown
      ensures exists app :: Owns(events, app, c) && Shows(events, app, hostOf, shown[c])
    {
      OwnerOwns(events, names, clientIds, hosts, hostOf, order, c, owners[c]);
      HoldsInDicts(events, names, clientIds, hosts, hostOf, order[owners[c]], c);
    }
    forall app, c | Holds(events, app, c)
      ensures c in shown
    {
      HoldsInDicts(events, names, clientIds, hosts, hostOf, app, c);
      assert app in order;
    }
  }
}
