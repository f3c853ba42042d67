/** `app/client_ip.py`: whose address a request is taken to come from, behind proxies. */
module ClientIp {
  import opened Options

  datatype Address = Address(version: nat, value: nat)
  /** A network: the addresses of one version from `base` on, `size` of them. */
  datatype Network = Network(version: nat, base: nat, size: nat)

  predicate Covers(net: Network, address: Address) {
    net.version == address.version && net.base <= address.value < net.base + net.size
  }

  /** The setting, and what the standard library makes of a text. */
  datatype Config = Config(
    trustedProxies: seq<string>,
    network: string -> Option<Network>, address: string -> Option<Address>, isSpace: char -> bool)

  const UNKNOWN := "unknown"

  // ----- text -----

  function StripLeft(cfg: Config, s: string): string {
    if s != "" && cfg.isSpace(s[0]) then StripLeft(cfg, s[1..]) else s
  }

  function StripRight(cfg: Config, s: string): string {
    if s != "" && cfg.isSpace(s[|s| - 1]) then StripRight(cfg, s[..|s| - 1]) else s
  }

  function Strip(cfg: Config, s: string): string {
    StripRight(cfg, StripLeft(cfg, s))
  }

  /** `str.split(",")`: one piece more than there are commas. */
  function Split(s: string): seq<string> {
    if s == "" then [""]
    else
      var rest := Split(s[1..]);
      if s[0] == ',' then [""] + rest
      else if rest == [] then [s] else [[s[0]] + rest[0]] + rest[1..]
  }

  function NonBlank(cfg: Config, pieces: seq<string>): seq<string> {
    if pieces == [] then []
    else (if Strip(cfg, pieces[0]) == "" then [] else [Strip(cfg, pieces[0])]) + NonBlank(cfg, pieces[1..])
  }

  /** The forwarded entries: split at commas, stripped, blank ones dropped. */
  function Entries(cfg: Config, header: string): seq<string> {
    NonBlank(cfg, Split(header))
  }

  // ----- what the text means -----

  predicate OnlyBlanks(cfg: Config, s: string) {
    forall i :: 0 <= i < |s| ==> cfg.isSpace(s[i])
  }

  /** `t` is `s` without the blanks around it. */
  ghost predicate IsStripped(cfg: Config, s: string, t: string) {
    && (exists a, b :: s == a + t + b && OnlyBlanks(cfg, a) && OnlyBlanks(cfg, b))
    && (t != "" ==> !cfg.isSpace(t[0]) && !cfg.isSpace(t[|t| - 1]))
  }

  function Joined(pieces: seq<string>): string
    requires pieces != []
  {
    if |pieces| == 1 then pieces[0] else pieces[0] + "," + Joined(pieces[1..])
  }

  /** What is between the commas. */
  predicate IsSplit(s: string, pieces: seq<string>) {
    pieces != [] && Joined(pieces) == s && forall p | p in pieces :: ',' !in p
  }

  /** The pieces that are not blank, in their order and without the blanks around them. */
  ghost predicate AreStripped(cfg: Config, pieces: seq<string>, entries: seq<string>) {
    if pieces == [] then entries == []
    else if OnlyBlanks(cfg, pieces[0]) then AreStripped(cfg, pieces[1..], entries)
    else entries != [] && IsStripped(cfg, pieces[0], entries[0]) && AreStripped(cfg, pieces[1..], entries[1..])
  }

  ghost predicate AreEntries(cfg: Config, header: string, entries: seq<string>) {
    exists pieces :: IsSplit(header, pieces) && AreStripped(cfg, pieces, entries)
  }

  lemma {:induction false} StripLeftCuts(cfg: Config, s: string) returns (a: string)
    ensures s == a + StripLeft(cfg, s) && OnlyBlanks(cfg, a)
    ensures StripLeft(cfg, s) != "" ==> !cfg.isSpace(StripLeft(cfg, s)[0])
  {
    if s != "" && cfg.isSpace(s[0]) {
      a := StripLeftCuts(cfg, s[1..]);
      a := [s[0]] + a;
    } else {
      a := "";
    }
  }

  lemma {:induction false} StripRightCuts(cfg: Config, s: string) returns (b: string)
    ensures s == StripRight(cfg, s) + b && OnlyBlanks(cfg, b)
    ensures StripRight(cfg, s) != "" ==> !cfg.isSpace(StripRight(cfg, s)[|StripRight(cfg, s)| - 1])
  {
    if s != "" && cfg.isSpace(s[|s| - 1]) {
      b := StripRightCuts(cfg, s[..|s| - 1]);
      b := b + [s[|s| - 1]];
    } else {
      b := "";
    }
  }

  lemma StripIs(cfg: Config, s: string)
    ensures IsStripped(cfg, s, Strip(cfg, s))
  {
    var a := StripLeftCuts(cfg, s);
    var b := StripRightCuts(cfg, StripLeft(cfg, s));
    assert s == a + Strip(cfg, s) + b;
  }

  lemma {:induction false} StripLeftOver(cfg: Config, a: string, s: string)
    requires OnlyBlanks(cfg, a)
    ensures StripLeft(cfg, a + s) == StripLeft(cfg, s)
  {
    if a == "" {
      assert a + s == s;
    } else {
      assert (a + s)[1..] == a[1..] + s;
      StripLeftOver(cfg, a[1..], s);
    }
  }

  lemma {:induction false} StripRightOver(cfg: Config, s: string, b: string)
    requires OnlyBlanks(cfg, b)
    ensures StripRight(cfg, s + b) == StripRight(cfg, s)
  {
    if b == "" {
      assert s + b == s;
    } else {
      assert (s + b)[..|s + b| - 1] == s + b[..|b| - 1];
      StripRightOver(cfg, s, b[..|b| - 1]);
    }
  }

  lemma StripOnly(cfg: Config, s: string, t: string)
    requires IsStripped(cfg, s, t)
    ensures t == Strip(cfg, s)
  {
    var a, b :| s == a + t + b && OnlyBlanks(cfg, a) && OnlyBlanks(cfg, b);
    assert s == a + (t + b);
    StripLeftOver(cfg, a, t + b);
    if t == "" {
      assert t + b == b && b + "" == b;
      StripLeftOver(cfg, b, "");
    } else {
      StripRightOver(cfg, t, b);
    }
  }

  lemma {:induction false} SplitIs(s: string)
    ensures IsSplit(s, Split(s))
  {
    if s != "" {
      SplitIs(s[1..]);
      var rest := Split(s[1..]);
      if s[0] == ',' {
        assert Split(s)[1..] == rest;
        assert s == "" + "," + s[1..];
      } else {
        var all := [[s[0]] + rest[0]] + rest[1..];
        assert Split(s) == all && all[1..] == rest[1..] && rest == [rest[0]] + rest[1..];
        if |rest| > 1 {
          assert Joined(all) == [s[0]] + rest[0] + "," + Joined(rest[1..]);
          assert Joined(rest) == rest[0] + "," + Joined(rest[1..]);
        }
      }
    }
  }

  lemma {:induction false} SplitOnly(s: string, pieces: seq<string>)
    requires IsSplit(s, pieces)
    ensures pieces == Split(s)
    decreases |pieces|
  {
    WithoutComma(pieces[0]);
    if |pieces| > 1 {
      var rest := pieces[1..];
      SplitOnly(Joined(rest), rest);
      SplitJoined(pieces[0], Joined(rest));
      assert pieces == [pieces[0]] + rest;
    } else {
      assert pieces == [pieces[0]];
    }
  }

  lemma {:induction false} WithoutComma(s: string)
    requires ',' !in s
    ensures Split(s) == [s]
  {
    if s != "" {
      WithoutComma(s[1..]);
      assert [s[0]] + s[1..] == s;
    }
  }

  lemma {:induction false} NonBlankIs(cfg: Config, pieces: seq<string>, entries: seq<string>)
    ensures AreStripped(cfg, pieces, entries) <==> entries == NonBlank(cfg, pieces)
  {
    if pieces != [] {
      StripEmpty(cfg, pieces[0]);
      if OnlyBlanks(cfg, pieces[0]) {
        NonBlankIs(cfg, pieces[1..], entries);
      } else if entries != [] {
        NonBlankIs(cfg, pieces[1..], entries[1..]);
        StripIs(cfg, pieces[0]);
        if IsStripped(cfg, pieces[0], entries[0]) {
          StripOnly(cfg, pieces[0], entries[0]);
        }
        assert entries == [entries[0]] + entries[1..];
      }
    }
  }

  /** The computed entries are the ones the text means, and the only ones. */
  lemma EntriesExactly(cfg: Config, header: string, entries: seq<string>)
    ensures AreEntries(cfg, header, entries) <==> entries == Entries(cfg, header)
  {
    SplitIs(header);
    NonBlankIs(cfg, Split(header), entries);
    forall pieces | IsSplit(header, pieces)
      ensures pieces == Split(header)
    {
      SplitOnly(header, pieces);
    }
  }

  // ----- trust -----

  /** Networks are aligned on their size, as a prefix makes them; then an address is in one
      exactly if it has that prefix. */
  lemma CoversIsPrefix(net: Network, address: Address)
    requires net.size > 0 && net.base % net.size == 0
    ensures Covers(net, address) <==> net.version == address.version && address.value / net.size == net.base / net.size
  {
    var q, p := net.base / net.size, address.value / net.size;
    assert net.base == q * net.size;
    assert address.value == p * net.size + address.value % net.size;
    if p < q {
      assert (p + 1) * net.size <= q * net.size;
    } else if p > q {
      assert p * net.size >= (q + 1) * net.size;
    }
  }

  /** Some usable entry of the setting covers the address; an entry that is no network,
      like an address that is none, is as if it were not there. */
  ghost predicate Trusted(cfg: Config, address: string) {
    cfg.address(address).Some? && BySetting(cfg, cfg.address(address).value)
  }

  ghost predicate BySetting(cfg: Config, address: Address) {
    exists i :: 0 <= i < |cfg.trustedProxies| && CoveredBy(cfg, i, address)
  }

  predicate InSome(nets: seq<Network>, address: Address) {
    exists net :: net in nets && Covers(net, address)
  }

  ghost predicate CoveredBy(cfg: Config, i: nat, address: Address)
    requires i < |cfg.trustedProxies|
  {
    exists text :: IsStripped(cfg, cfg.trustedProxies[i], text)
                   && cfg.network(text).Some? && Covers(cfg.network(text).value, address)
  }

  lemma CoveredByStripped(cfg: Config, i: nat, address: Address)
    requires i < |cfg.trustedProxies|
    ensures CoveredBy(cfg, i, address)
            <==> (var net := cfg.network(Strip(cfg, cfg.trustedProxies[i])); net.Some? && Covers(net.value, address))
  {
    StripIs(cfg, cfg.trustedProxies[i]);
    forall text | IsStripped(cfg, cfg.trustedProxies[i], text)
      ensures text == Strip(cfg, cfg.trustedProxies[i])
    {
      StripOnly(cfg, cfg.trustedProxies[i], text);
    }
  }

  method Networks(cfg: Config) returns (nets: seq<Network>)
    ensures forall a :: BySetting(cfg, a) <==> InSome(nets, a)
  {
    nets := [];
    for i := 0 to |cfg.trustedProxies|
      invariant forall a, j | 0 <= j < i && CoveredBy(cfg, j, a) :: exists net :: net in nets && Covers(net, a)
      invariant forall net | net in nets ::
                  exists j :: 0 <= j < i && cfg.network(Strip(cfg, cfg.trustedProxies[j])) == Some(net)
    {
      var parsed := cfg.network(Strip(cfg, cfg.trustedProxies[i]));
      forall a
        ensures CoveredBy(cfg, i, a) <==> parsed.Some? && Covers(parsed.value, a)
      {
        CoveredByStripped(cfg, i, a);
      }
      if parsed.Some? {
        assert parsed.value in nets + [parsed.value];
        nets := nets + [parsed.value];
      }
    }
    forall a | InSome(nets, a)
      ensures BySetting(cfg, a)
    {
      var net :| net in nets && Covers(net, a);
      var j :| 0 <= j < |cfg.trustedProxies| && cfg.network(Strip(cfg, cfg.trustedProxies[j])) == Some(net);
      CoveredByStripped(cfg, j, a);
    }
  }

  method IsTrusted(cfg: Config, address: string) returns (trusted: bool)
    ensures trusted <==> Trusted(cfg, address)
  {
    var nets := Networks(cfg);
    if nets == [] {
      return false;
    }
    var parsed := cfg.address(address);
    if parsed.None? {
      return false;
    }
    trusted := InSome(nets, parsed.value);
  }

  // ----- the walk from the right -----

  /** Entry `i` is the rightmost one nobody trusted wrote. */
  ghost predicate RightmostUntrusted(cfg: Config, entries: seq<string>, i: nat) {
    i < |entries| && !Trusted(cfg, entries[i]) && forall j :: i < j < |entries| ==> Trusted(cfg, entries[j])
  }

  datatype Answer = Caller(address: string) | IndexError

  /** What the entries of a header from a trusted peer come to. */
  ghost predicate Resolves(cfg: Config, entries: seq<string>, answer: Answer) {
    match answer
    case IndexError => entries == []
    case Caller(address) =>
      || (exists i: nat :: RightmostUntrusted(cfg, entries, i) && address == entries[i])
      || (entries != [] && (forall e | e in entries :: Trusted(cfg, e)) && address == entries[0])
  }

  /** The caller's address: the peer unless it is a trusted proxy; else the rightmost
      forwarded entry no trusted proxy wrote; else the leftmost. It raises exactly on a
      trusted peer's header that is not empty and holds nothing but blanks and commas. */
  method Resolve(cfg: Config, client: Option<string>, forwarded: Option<string>, realIp: Option<string>)
    returns (answer: Answer)
    ensures var peer := if client.Some? then client.value else UNKNOWN;
            if !Trusted(cfg, peer) then answer == Caller(peer)
            else if forwarded.Some? && forwarded.value != ""
            then exists entries :: AreEntries(cfg, forwarded.value, entries) && Resolves(cfg, entries, answer)
            else if realIp.Some? && realIp.value != ""
            then answer.Caller? && IsStripped(cfg, realIp.value, answer.address)
            else answer == Caller(peer)
    ensures answer == IndexError <==>
            && Trusted(cfg, if client.Some? then client.value else UNKNOWN)
            && forwarded.Some? && forwarded.value != "" && OnlyBlanksAndCommas(cfg, forwarded.value)
  {
    if forwarded.Some? {
      NoEntriesExactlyWhenBlank(cfg, forwarded.value);
      EntriesExactly(cfg, forwarded.value, Entries(cfg, forwarded.value));
    }
    if realIp.Some? {
      StripIs(cfg, realIp.value);
    }
    var peer := if client.Some? then client.value else UNKNOWN;
    var trusted := IsTrusted(cfg, peer);
    if cfg.trustedProxies == [] || !trusted {
      return Caller(peer);
    }
    if forwarded.Some? && forwarded.value != "" {
      answer := Rightmost(cfg, Entries(cfg, forwarded.value));
      return;
    }
    if realIp.Some? && realIp.value != "" {
      return Caller(Strip(cfg, realIp.value));
    }
    answer := Caller(peer);
  }

  /** Right to left, past the proxies. */
  method Rightmost(cfg: Config, entries: seq<string>) returns (answer: Answer)
    ensures Resolves(cfg, entries, answer) && (answer == IndexError <==> entries == [])
  {
    var i := |entries|;
    while i > 0
      invariant 0 <= i <= |entries|
      invariant forall j :: i <= j < |entries| ==> Trusted(cfg, entries[j])
    {
      i := i - 1;
      var trusted := IsTrusted(cfg, entries[i]);
      if !trusted {
        assert RightmostUntrusted(cfg, entries, i);
        return Caller(entries[i]);
      }
    }
    if entries == [] {
      return IndexError;
    }
    answer := Caller(entries[0]);
  }

  /** There is one answer only. */
  lemma OneAnswer(cfg: Config, entries: seq<string>, a: Answer, b: Answer)
    requires Resolves(cfg, entries, a) && Resolves(cfg, entries, b)
    ensures a == b
  {
    forall i: nat, j: nat | RightmostUntrusted(cfg, entries, i) && RightmostUntrusted(cfg, entries, j)
      ensures i == j
    {
    }
    forall i: nat | RightmostUntrusted(cfg, entries, i)
      ensures entries[i] in entries
    {
    }
  }

  // ----- what a caller can and cannot do about it -----

  lemma {:induction false} SplitJoined(a: string, b: string)
    ensures Split(a + "," + b) == Split(a) + Split(b)
  {
    var all := a + "," + b;
    if a == "" {
      assert all == [','] + b;
      assert all[1..] == b;
    } else {
      SplitJoined(a[1..], b);
      assert all[1..] == a[1..] + "," + b;
      SplitNotEmpty(a[1..]);
    }
  }

  lemma {:induction false} SplitNotEmpty(s: string)
    ensures |Split(s)| > 0
  {
    if s != "" {
      SplitNotEmpty(s[1..]);
    }
  }

  lemma {:induction false} NonBlankJoined(cfg: Config, p: seq<string>, q: seq<string>)
    ensures NonBlank(cfg, p + q) == NonBlank(cfg, p) + NonBlank(cfg, q)
  {
    if p == [] {
      assert p + q == q;
    } else {
      var first := if Strip(cfg, p[0]) == "" then [] else [Strip(cfg, p[0])];
      NonBlankJoined(cfg, p[1..], q);
      assert (p + q)[0] == p[0] && (p + q)[1..] == p[1..] + q;
      assert first + (NonBlank(cfg, p[1..]) + NonBlank(cfg, q)) == first + NonBlank(cfg, p[1..]) + NonBlank(cfg, q);
    }
  }

  /** Whatever a caller writes in front of what the proxies add changes nothing, as long
      as they added an address that is not a proxy's. */
  lemma PrependingChangesNothing(cfg: Config, text: string, header: string, answer: Answer)
    requires exists e :: e in Entries(cfg, header) && !Trusted(cfg, e)
    ensures Resolves(cfg, Entries(cfg, text + "," + header), answer) <==> Resolves(cfg, Entries(cfg, header), answer)
  {
    var front, back := Entries(cfg, text), Entries(cfg, header);
    SplitJoined(text, header);
    NonBlankJoined(cfg, Split(text), Split(header));
    var k := RightmostOf(cfg, back);
    assert RightmostUntrusted(cfg, back, k);
    forall j | |front| + k < j < |front + back|
      ensures Trusted(cfg, (front + back)[j])
    {
      assert (front + back)[j] == back[j - |front|];
    }
    assert RightmostUntrusted(cfg, front + back, |front| + k);
    assert Resolves(cfg, front + back, Caller(back[k])) && Resolves(cfg, back, Caller(back[k]));
    if Resolves(cfg, front + back, answer) {
      OneAnswer(cfg, front + back, answer, Caller(back[k]));
    }
    if Resolves(cfg, back, answer) {
      OneAnswer(cfg, back, answer, Caller(back[k]));
    }
  }

  lemma {:induction false} RightmostOf(cfg: Config, entries: seq<string>) returns (k: nat)
    requires exists e :: e in entries && !Trusted(cfg, e)
    ensures RightmostUntrusted(cfg, entries, k)
  {
    k := |entries| - 1;
    while Trusted(cfg, entries[k])
      invariant 0 <= k < |entries| && forall j :: k < j < |entries| ==> Trusted(cfg, entries[j])
      decreases k
    {
      k := k - 1;
    }
  }

  // ----- a header with nothing in it -----

  predicate OnlyBlanksAndCommas(cfg: Config, s: string) {
    forall i :: 0 <= i < |s| ==> cfg.isSpace(s[i]) || s[i] == ','
  }

  lemma FirstBlank(cfg: Config, c: char, s: string)
    ensures OnlyBlanks(cfg, [c] + s) <==> cfg.isSpace(c) && OnlyBlanks(cfg, s)
  {
    var all := [c] + s;
    assert forall i :: 0 <= i < |s| ==> s[i] == all[i + 1];
    assert all[0] == c;
  }

  lemma {:induction false} StripLeftEmpty(cfg: Config, s: string)
    ensures StripLeft(cfg, s) == "" <==> OnlyBlanks(cfg, s)
    ensures StripLeft(cfg, s) != "" ==> !cfg.isSpace(StripLeft(cfg, s)[0])
  {
    if s != "" && cfg.isSpace(s[0]) {
      StripLeftEmpty(cfg, s[1..]);
      assert forall i :: 0 < i < |s| ==> s[i] == s[1..][i - 1];
      if OnlyBlanks(cfg, s[1..]) {
        assert OnlyBlanks(cfg, s);
      }
    }
  }

  lemma {:induction false} StripRightEmpty(cfg: Config, s: string)
    requires s != "" && !cfg.isSpace(s[0])
    ensures StripRight(cfg, s) != ""
  {
    if cfg.isSpace(s[|s| - 1]) {
      StripRightEmpty(cfg, s[..|s| - 1]);
    }
  }

  lemma StripEmpty(cfg: Config, s: string)
    ensures Strip(cfg, s) == "" <==> OnlyBlanks(cfg, s)
  {
    StripLeftEmpty(cfg, s);
    if StripLeft(cfg, s) != "" {
      StripRightEmpty(cfg, StripLeft(cfg, s));
    }
  }

  lemma {:induction false} NonBlankEmpty(cfg: Config, pieces: seq<string>)
    ensures NonBlank(cfg, pieces) == [] <==> forall p | p in pieces :: OnlyBlanks(cfg, p)
  {
    if pieces != [] {
      StripEmpty(cfg, pieces[0]);
      NonBlankEmpty(cfg, pieces[1..]);
      assert pieces == [pieces[0]] + pieces[1..];
    }
  }

  lemma {:induction false} PiecesBlank(cfg: Config, s: string)
    ensures |Split(s)| > 0
    ensures (forall p | p in Split(s) :: OnlyBlanks(cfg, p)) <==> OnlyBlanksAndCommas(cfg, s)
  {
    if s != "" {
      var rest := Split(s[1..]);
      PiecesBlank(cfg, s[1..]);
      var all := Split(s);
      assert forall i :: 0 < i < |s| ==> s[i] == s[1..][i - 1];
      if s[0] == ',' {
        assert all == [""] + rest;
      } else {
        var head := [s[0]] + rest[0];
        assert all == [head] + rest[1..] && rest == [rest[0]] + rest[1..];
        FirstBlank(cfg, s[0], rest[0]);
      }
      assert OnlyBlanksAndCommas(cfg, s) <==> (cfg.isSpace(s[0]) || s[0] == ',') && OnlyBlanksAndCommas(cfg, s[1..]);
    }
  }

  /** A header has no entry exactly when it holds nothing but blanks and commas. */
  lemma NoEntriesExactlyWhenBlank(cfg: Config, header: string)
    ensures Entries(cfg, header) == [] <==> OnlyBlanksAndCommas(cfg, header)
  {
    NonBlankEmpty(cfg, Split(header));
    PiecesBlank(cfg, header);
  }
}
