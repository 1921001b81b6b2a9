/**
 * The places of backend/src/listener.rs: permits taken before a connection is accepted, the share a
 * client holds, and the places kept for the health check. Connections end on other threads, so a
 * place is given back in two steps, its permit and then its share, anywhere between two steps of
 * the accept loop.
 */
module Listener {
  import opened Addresses

  const HEALTH_CHECK_PLACES: nat := 4
  const USIZE_MAX: nat := 0xFFFF_FFFF_FFFF_FFFF

  datatype Limits = Limits(connections: nat, perClient: nat, proxies: seq<Network>)

  datatype Permit = Open | HealthCheck

  /** Where the accept loop stands: nothing held, a permit held, or about to take a share. */
  datatype Stage = Idle | Waiting(permit: Permit) | Deciding(bucket: Ip, crowded: bool)

  /**
   * `open` and `healthCheck` are the permits left, `byClient` the shares counted. The served
   * connections: `clients` by their buckets, `proxied` and `checked` by their peers. `leaving`
   * have given back their permit and not yet their share.
   */
  datatype State = State(
    open: nat, healthCheck: nat, byClient: map<Ip, nat>, stage: Stage,
    clients: seq<Ip>, proxied: seq<Ip>, checked: seq<Ip>, leaving: seq<Ip>)

  datatype Step =
    | Acquire
    | AcceptFailed
    | Accepted(peer: Ip)
    | Take
    | ClientLeaves(at: nat)
    | ShareReturned(at: nat)
    | ProxiedLeaves(at: nat)
    | CheckedLeaves(at: nat)

  function New(limits: Limits): State {
    State(limits.connections, HEALTH_CHECK_PLACES, map[], Idle, [], [], [], [])
  }

  predicate Loopback(peer: Ip) {
    Canonical(peer) == Ip(V4, 0x7F00_0001) || Canonical(peer) == Ip(V6, 1)
  }

  function HeldBy(byClient: map<Ip, nat>, bucket: Ip): nat {
    if bucket in byClient then byClient[bucket] else 0
  }

  function Without<T>(s: seq<T>, i: nat): (r: seq<T>)
    requires i < |s|
    ensures |r| == |s| - 1
  {
    s[..i] + s[i + 1..]
  }

  predicate Enabled(s: State, step: Step) {
    match step
    case Acquire => s.stage.Idle? && (s.open > 0 || s.healthCheck > 0)
    case AcceptFailed => s.stage.Waiting?
    case Accepted(_) => s.stage.Waiting?
    case Take => s.stage.Deciding?
    case ClientLeaves(i) => i < |s.clients|
    case ShareReturned(i) => i < |s.leaving|
    case ProxiedLeaves(i) => i < |s.proxied|
    case CheckedLeaves(i) => i < |s.checked|
  }

  function GivenBack(s: State, permit: Permit): State {
    if permit.Open? then s.(open := s.open + 1) else s.(healthCheck := s.healthCheck + 1)
  }

  /** An open place first, else one kept for the health check. */
  function Acquired(s: State): State
    requires Enabled(s, Acquire)
  {
    if s.open > 0 then s.(open := s.open - 1, stage := Waiting(Open))
    else s.(healthCheck := s.healthCheck - 1, stage := Waiting(HealthCheck))
  }

  /** A peer is there: decided at once, save for a client's share. */
  function Answered(limits: Limits, s: State, peer: Ip): State
    requires s.stage.Waiting?
  {
    if s.stage.permit.HealthCheck? then
      if Loopback(peer) then s.(stage := Idle, checked := s.checked + [peer])
      else GivenBack(s, HealthCheck).(stage := Idle)
    else if Listed(limits.proxies, peer) then s.(stage := Idle, proxied := s.proxied + [peer])
    else
      var taken := limits.connections - s.open - 1;
      s.(stage := Deciding(Bucket(peer), taken >= limits.connections / 2))
  }

  function AtMost(limits: Limits, crowded: bool): nat {
    if crowded then limits.perClient else USIZE_MAX
  }

  predicate Admits(limits: Limits, s: State)
    requires s.stage.Deciding?
  {
    HeldBy(s.byClient, s.stage.bucket) < AtMost(limits, s.stage.crowded)
  }

  /** The table once `bucket` was looked up, and its share counted when it takes one. */
  function Counted(byClient: map<Ip, nat>, bucket: Ip, taken: bool): map<Ip, nat> {
    byClient[bucket := HeldBy(byClient, bucket) + if taken then 1 else 0]
  }

  /** The share taken, or the connection closed, the entry looked up left behind. */
  function Shared(limits: Limits, s: State): State
    requires s.stage.Deciding?
  {
    var bucket := s.stage.bucket;
    if Admits(limits, s) then
      s.(stage := Idle, byClient := Counted(s.byClient, bucket, true), clients := s.clients + [bucket])
    else
      s.(stage := Idle, byClient := Counted(s.byClient, bucket, false), open := s.open + 1)
  }

  /** A share given back: an address that holds nothing leaves the table. */
  function Returned(byClient: map<Ip, nat>, bucket: Ip): map<Ip, nat> {
    if bucket !in byClient || byClient[bucket] == 0 then byClient
    else if byClient[bucket] == 1 then byClient - {bucket}
    else byClient[bucket := byClient[bucket] - 1]
  }

  function Next(limits: Limits, s: State, step: Step): State
    requires Enabled(s, step)
  {
    match step
    case Acquire => Acquired(s)
    case AcceptFailed => GivenBack(s, s.stage.permit).(stage := Idle)
    case Accepted(peer) => Answered(limits, s, peer)
    case Take => Shared(limits, s)
    case ClientLeaves(i) =>
      GivenBack(s, Open).(clients := Without(s.clients, i), leaving := s.leaving + [s.clients[i]])
    case ShareReturned(i) => s.(byClient := Returned(s.byClient, s.leaving[i]), leaving := Without(s.leaving, i))
    case ProxiedLeaves(i) => GivenBack(s, Open).(proxied := Without(s.proxied, i))
    case CheckedLeaves(i) => GivenBack(s, HealthCheck).(checked := Without(s.checked, i))
  }

  // ----- counting

  function Count(s: seq<Ip>, b: Ip): (n: nat)
    ensures n <= |s|
  {
    if s == [] then 0 else Count(s[..|s| - 1], b) + if s[|s| - 1] == b then 1 else 0
  }

  /** How many came when their client already held `p`, summed over the clients. */
  function Excess(s: seq<Ip>, p: nat): (n: nat)
    ensures n <= |s|
  {
    if s == [] then 0
    else Excess(s[..|s| - 1], p) + if Count(s[..|s| - 1], s[|s| - 1]) >= p then 1 else 0
  }

  lemma CountOneMore(s: seq<Ip>, x: Ip, b: Ip)
    ensures Count(s + [x], b) == Count(s, b) + if x == b then 1 else 0
  {
    assert (s + [x])[..|s|] == s;
  }

  lemma ExcessOneMore(s: seq<Ip>, x: Ip, p: nat)
    ensures Excess(s + [x], p) == Excess(s, p) + if Count(s, x) >= p then 1 else 0
  {
    assert (s + [x])[..|s|] == s;
  }

  lemma WithoutAnEarlierOne(s: seq<Ip>, i: nat)
    requires i < |s| - 1
    ensures Without(s, i) == Without(s[..|s| - 1], i) + [s[|s| - 1]]
  {
  }

  lemma {:induction false} OneLess(s: seq<Ip>, i: nat, b: Ip)
    requires i < |s|
    ensures Count(s, b) == Count(Without(s, i), b) + if s[i] == b then 1 else 0
    decreases |s|
  {
    var last := |s| - 1;
    if i == last {
      assert Without(s, i) == s[..last];
    } else {
      OneLess(s[..last], i, b);
      WithoutAnEarlierOne(s, i);
      CountOneMore(Without(s[..last], i), s[last], b);
    }
  }

  /** Whoever leaves, the excess does not grow. */
  lemma {:induction false} LeavingAddsNoExcess(s: seq<Ip>, i: nat, p: nat)
    requires i < |s|
    ensures Excess(Without(s, i), p) <= Excess(s, p)
    decreases |s|
  {
    var last := |s| - 1;
    if i == last {
      assert Without(s, i) == s[..last];
    } else {
      var front := s[..last];
      LeavingAddsNoExcess(front, i, p);
      OneLess(front, i, s[last]);
      WithoutAnEarlierOne(s, i);
      ExcessOneMore(Without(front, i), s[last], p);
    }
  }

  function Others(s: seq<Ip>, b: Ip): (r: seq<Ip>)
    ensures forall x :: x in r <==> x in s && x != b
    ensures |r| <= |s|
  {
    if s == [] then []
    else if s[|s| - 1] == b then Others(s[..|s| - 1], b)
    else Others(s[..|s| - 1], b) + [s[|s| - 1]]
  }

  lemma {:induction false} OthersCountAlike(s: seq<Ip>, b: Ip, c: Ip)
    requires b != c
    ensures Count(Others(s, b), c) == Count(s, c)
  {
    if s != [] {
      var last := |s| - 1;
      OthersCountAlike(s[..last], b, c);
      if s[last] != b {
        assert Others(s, b)[..|Others(s, b)| - 1] == Others(s[..last], b);
      }
    }
  }

  function Least(a: nat, b: nat): nat {
    if a < b then a else b
  }

  /** One client's part of what is not excess: at most `p`. */
  lemma {:induction false} OneClientsPart(s: seq<Ip>, b: Ip, p: nat)
    ensures |s| - Excess(s, p) == |Others(s, b)| - Excess(Others(s, b), p) + Least(p, Count(s, b))
  {
    if s != [] {
      var last := |s| - 1;
      OneClientsPart(s[..last], b, p);
      if s[last] != b {
        OthersCountAlike(s[..last], b, s[last]);
        assert Others(s, b)[..|Others(s, b)| - 1] == Others(s[..last], b);
      }
    }
  }

  function Distinct(s: seq<Ip>): set<Ip> {
    set b | b in s
  }

  /** All but the excess is within the shares of the clients there are. */
  lemma {:induction false} WithinTheShares(s: seq<Ip>, p: nat)
    ensures |s| <= Excess(s, p) + p * |Distinct(s)|
    decreases |s|
  {
    if s == [] {
      assert p * |Distinct(s)| >= 0;
    } else {
      var b := s[0];
      var rest := Others(s, b);
      OtherThanOneOfThem(s, b);
      WithinTheShares(rest, p);
      OneClientsPart(s, b, p);
      assert Distinct(rest) == Distinct(s) - {b};
      OneShareMore(p, |Distinct(rest)|, |Distinct(s)|);
    }
  }

  lemma OneShareMore(p: nat, fewer: nat, more: nat)
    requires more == fewer + 1
    ensures p * more == p * fewer + p
  {
    assert p * (fewer + 1) == p * fewer + p;
  }

  lemma {:induction false} OtherThanOneOfThem(s: seq<Ip>, b: Ip)
    requires b in s
    ensures |Others(s, b)| < |s|
  {
    if s[|s| - 1] != b {
      OtherThanOneOfThem(s[..|s| - 1], b);
    }
  }

  // ----- what every step keeps

  function HoldsPermit(stage: Stage, permit: Permit): nat {
    match stage
    case Idle => 0
    case Waiting(held) => if held == permit then 1 else 0
    case Deciding(_, _) => if permit.Open? then 1 else 0
  }

  ghost predicate PermitsAdd(limits: Limits, s: State) {
    s.open + |s.clients| + |s.proxied| + HoldsPermit(s.stage, Open) == limits.connections &&
    s.healthCheck + |s.checked| + HoldsPermit(s.stage, HealthCheck) == HEALTH_CHECK_PLACES
  }

  ghost predicate SharesAdd(s: State) {
    forall b :: HeldBy(s.byClient, b) == Count(s.clients, b) + Count(s.leaving, b)
  }

  ghost predicate NothingIdleKept(limits: Limits, s: State) {
    limits.perClient > 0 ==> forall b | b in s.byClient :: s.byClient[b] > 0
  }

  ghost predicate ExcessBounded(limits: Limits, s: State) {
    Excess(s.clients, limits.perClient) <= limits.connections / 2 &&
    (s.stage.Deciding? && !s.stage.crowded ==> |s.clients| < limits.connections / 2)
  }

  ghost predicate Kept(limits: Limits, s: State) {
    PermitsAdd(limits, s) && SharesAdd(s) && NothingIdleKept(limits, s) && ExcessBounded(limits, s) &&
    OnlyLoopback(s.checked)
  }

  lemma SharesKept(limits: Limits, s: State, step: Step)
    requires Enabled(s, step) && SharesAdd(s)
    ensures SharesAdd(Next(limits, s, step))
  {
    match step
    case Take => TakenShareAdds(limits, s);
    case ClientLeaves(i) => LeavingSharesAdd(limits, s, i);
    case ShareReturned(i) => ReturnedShareAdds(limits, s, i);
    case _ =>
  }

  lemma TakenShareAdds(limits: Limits, s: State)
    requires s.stage.Deciding? && SharesAdd(s)
    ensures SharesAdd(Shared(limits, s))
  {
    var t, bucket := Shared(limits, s), s.stage.bucket;
    forall b ensures HeldBy(t.byClient, b) == Count(t.clients, b) + Count(t.leaving, b) {
      assert HeldBy(s.byClient, b) == Count(s.clients, b) + Count(s.leaving, b);
      if Admits(limits, s) {
        CountOneMore(s.clients, bucket, b);
      }
    }
  }

  lemma LeavingSharesAdd(limits: Limits, s: State, i: nat)
    requires i < |s.clients| && SharesAdd(s)
    ensures SharesAdd(Next(limits, s, ClientLeaves(i)))
  {
    var t := Next(limits, s, ClientLeaves(i));
    forall b ensures HeldBy(t.byClient, b) == Count(t.clients, b) + Count(t.leaving, b) {
      assert HeldBy(s.byClient, b) == Count(s.clients, b) + Count(s.leaving, b);
      OneLess(s.clients, i, b);
      CountOneMore(s.leaving, s.clients[i], b);
    }
  }

  lemma ReturnedShareAdds(limits: Limits, s: State, i: nat)
    requires i < |s.leaving| && SharesAdd(s)
    ensures SharesAdd(Next(limits, s, ShareReturned(i)))
  {
    var t := Next(limits, s, ShareReturned(i));
    forall b ensures HeldBy(t.byClient, b) == Count(t.clients, b) + Count(t.leaving, b) {
      assert HeldBy(s.byClient, b) == Count(s.clients, b) + Count(s.leaving, b);
      OneLess(s.leaving, i, b);
    }
  }

  lemma ExcessKept(limits: Limits, s: State, step: Step)
    requires Enabled(s, step) && Kept(limits, s)
    ensures ExcessBounded(limits, Next(limits, s, step))
  {
    var t := Next(limits, s, step);
    match step
    case Take =>
      var b := s.stage.bucket;
      assert HeldBy(s.byClient, b) == Count(s.clients, b) + Count(s.leaving, b);
      if Admits(limits, s) {
        assert t.clients[..|t.clients| - 1] == s.clients;
      }
    case ClientLeaves(i) =>
      LeavingAddsNoExcess(s.clients, i, limits.perClient);
    case _ =>
  }

  lemma PermitsKept(limits: Limits, s: State, step: Step)
    requires Enabled(s, step) && PermitsAdd(limits, s)
    ensures PermitsAdd(limits, Next(limits, s, step))
  {
    match step
    case Accepted(peer) =>
      assert s.stage.permit.HealthCheck? || s.stage.permit.Open?;
    case _ =>
  }

  lemma TableKept(limits: Limits, s: State, step: Step)
    requires Enabled(s, step) && NothingIdleKept(limits, s)
    ensures NothingIdleKept(limits, Next(limits, s, step))
  {
    match step
    case Take =>
    case ShareReturned(i) =>
    case _ =>
  }

  ghost predicate OnlyLoopback(checked: seq<Ip>) {
    forall peer | peer in checked :: Loopback(peer)
  }

  lemma ReservedKept(limits: Limits, s: State, step: Step)
    requires Enabled(s, step) && OnlyLoopback(s.checked)
    ensures OnlyLoopback(Next(limits, s, step).checked)
  {
    match step
    case Accepted(peer) =>
    case CheckedLeaves(i) =>
    case _ =>
  }

  /** Whatever happens next, the permits, the shares and the excess still add up. */
  lemma StepKeeps(limits: Limits, s: State, step: Step)
    requires Enabled(s, step) && Kept(limits, s)
    ensures Kept(limits, Next(limits, s, step))
  {
    PermitsKept(limits, s, step);
    SharesKept(limits, s, step);
    TableKept(limits, s, step);
    ExcessKept(limits, s, step);
    ReservedKept(limits, s, step);
  }

  ghost predicate Leads(limits: Limits, s: State, step: Step, t: State) {
    Enabled(s, step) && t == Next(limits, s, step)
  }

  ghost predicate Reached(limits: Limits, steps: seq<Step>, s: State)
    decreases |steps|
  {
    if steps == [] then s == New(limits)
    else
      var earlier, step := steps[..|steps| - 1], steps[|steps| - 1];
      exists before :: Reached(limits, earlier, before) && Leads(limits, before, step, s)
  }

  lemma {:induction false} RunKeeps(limits: Limits, steps: seq<Step>, s: State)
    requires Reached(limits, steps, s)
    ensures Kept(limits, s)
    decreases |steps|
  {
    if steps != [] {
      var earlier, step := steps[..|steps| - 1], steps[|steps| - 1];
      var before :| Reached(limits, earlier, before) && Leads(limits, before, step, s);
      RunKeeps(limits, earlier, before);
      StepKeeps(limits, before, step);
    }
  }

  /**
   * After any run: the clients hold at most half the connections and one share each, the
   * permits in use never pass the limit, the places kept serve the loopback alone.
   */
  lemma OpenPlacesAreBounded(limits: Limits, steps: seq<Step>, s: State)
    requires Reached(limits, steps, s)
    ensures |s.clients| <= limits.connections / 2 + limits.perClient * |Distinct(s.clients)|
    ensures |s.clients| + |s.proxied| <= limits.connections
    ensures |s.checked| <= HEALTH_CHECK_PLACES && OnlyLoopback(s.checked)
    ensures forall b :: HeldBy(s.byClient, b) == Count(s.clients, b) + Count(s.leaving, b)
  {
    RunKeeps(limits, steps, s);
    WithinTheShares(s.clients, limits.perClient);
  }

  /** The next connection waits exactly while every place is taken, and takes an open one while there is any. */
  lemma WaitsWhenAllIsTaken(limits: Limits, steps: seq<Step>, s: State)
    requires Reached(limits, steps, s) && s.stage.Idle?
    ensures Enabled(s, Acquire) <==> |s.clients| + |s.proxied| < limits.connections || |s.checked| < 4
    ensures Enabled(s, Acquire) ==>
      (Next(limits, s, Acquire).stage ==
        if |s.clients| + |s.proxied| < limits.connections then Waiting(Open) else Waiting(HealthCheck))
  {
    RunKeeps(limits, steps, s);
  }

  /** 127.0.0.1, as it is or mapped, and ::1. */
  lemma LoopbackIs(peer: Ip)
    ensures Loopback(peer) <==>
      peer == Ip(V4, 127 * 0x100_0000 + 1) || peer == Ip(V6, 0xFFFF * Pow2(32) + 127 * 0x100_0000 + 1) ||
      peer == Ip(V6, 1)
  {
    TwoToThe32();
    MappedReadsAsIpv4(127 * 0x100_0000 + 1);
    OthersReadAsTheyAre(peer);
    OthersReadAsTheyAre(Ip(V6, 1));
  }

  /** Neither count taken from another goes below nothing: the places taken, and a share returned. */
  lemma NothingUnderflows(limits: Limits, steps: seq<Step>, s: State)
    requires Reached(limits, steps, s)
    ensures s.stage == Waiting(Open) ==> limits.connections - s.open - 1 == |s.clients| + |s.proxied|
    ensures forall i | 0 <= i < |s.leaving| :: HeldBy(s.byClient, s.leaving[i]) > 0
  {
    RunKeeps(limits, steps, s);
    forall i | 0 <= i < |s.leaving| ensures HeldBy(s.byClient, s.leaving[i]) > 0 {
      OneLess(s.leaving, i, s.leaving[i]);
      assert HeldBy(s.byClient, s.leaving[i]) == Count(s.clients, s.leaving[i]) + Count(s.leaving, s.leaving[i]);
    }
  }

  ghost predicate LedTo(limits: Limits, from: State, steps: seq<Step>, to: State)
    decreases |steps|
  {
    if steps == [] then to == from
    else
      var earlier, step := steps[..|steps| - 1], steps[|steps| - 1];
      exists before :: LedTo(limits, from, earlier, before) && Leads(limits, before, step, to)
  }

  /** Until the share is taken connections only leave, and what was decided on stands. */
  lemma {:induction false} DecisionStands(limits: Limits, from: State, steps: seq<Step>, to: State)
    requires Kept(limits, from) && from.stage.Deciding?
    requires LedTo(limits, from, steps, to) && Take !in steps
    ensures Kept(limits, to) && to.stage == from.stage
    decreases |steps|
  {
    if steps != [] {
      var earlier, step := steps[..|steps| - 1], steps[|steps| - 1];
      var before :| LedTo(limits, from, earlier, before) && Leads(limits, before, step, to);
      DecisionStands(limits, from, earlier, before);
      StepKeeps(limits, before, step);
    }
  }

  /** A client's peer is looked at by its bucket, crowded exactly when half the places serve somebody. */
  lemma CrowdedAtHalf(limits: Limits, steps: seq<Step>, s: State, peer: Ip)
    requires Reached(limits, steps, s) && s.stage == Waiting(Open) && !Listed(limits.proxies, peer)
    ensures Next(limits, s, Accepted(peer)) ==
      s.(stage := Deciding(Bucket(peer), |s.clients| + |s.proxied| >= limits.connections / 2))
  {
    RunKeeps(limits, steps, s);
  }

  /** The health check's places serve the loopback and close the rest, and a proxy is served whatever it holds. */
  lemma ServedAtOnce(limits: Limits, s: State, peer: Ip)
    requires s.stage.Waiting? && (s.stage.permit.HealthCheck? || Listed(limits.proxies, peer))
    ensures var t := Next(limits, s, Accepted(peer));
      t.stage.Idle? && t.byClient == s.byClient && t.clients == s.clients && t.leaving == s.leaving &&
      t.open == s.open &&
      t.proxied == (if s.stage.permit.Open? then s.proxied + [peer] else s.proxied) &&
      t.checked == (if s.stage.permit.HealthCheck? && Loopback(peer) then s.checked + [peer] else s.checked) &&
      t.healthCheck == (if s.stage.permit.HealthCheck? && !Loopback(peer) then s.healthCheck + 1 else s.healthCheck)
  {
  }

  /**
   * From the accept to the share taken, whoever leaves in between: a client is served exactly when it
   * holds fewer than its share, those it is still giving back included, or fewer than half the places
   * served somebody when it was accepted. Closed, it gives back its permit and nothing else is changed.
   */
  lemma ClosedOnlyPastItsShare(
    limits: Limits, steps: seq<Step>, s: State, peer: Ip, leaving: seq<Step>, t: State)
    requires Reached(limits, steps, s) && s.stage == Waiting(Open) && !Listed(limits.proxies, peer)
    requires LedTo(limits, Next(limits, s, Accepted(peer)), leaving, t) && Take !in leaving
    ensures t.stage.Deciding?
    ensures
      var client := Bucket(peer);
      var held := Count(t.clients, client) + Count(t.leaving, client);
      var share := if |s.clients| + |s.proxied| < limits.connections / 2 then USIZE_MAX else limits.perClient;
      var after := Next(limits, t, Take);
      after.stage.Idle? && after.proxied == t.proxied && after.checked == t.checked && after.leaving == t.leaving &&
      after.clients == (if held < share then t.clients + [client] else t.clients) &&
      after.open == (if held < share then t.open else t.open + 1) && after.healthCheck == t.healthCheck
  {
    RunKeeps(limits, steps, s);
    CrowdedAtHalf(limits, steps, s, peer);
    StepKeeps(limits, s, Accepted(peer));
    DecisionStands(limits, Next(limits, s, Accepted(peer)), leaving, t);
    assert HeldBy(t.byClient, Bucket(peer)) == Count(t.clients, Bucket(peer)) + Count(t.leaving, Bucket(peer));
  }

  /** Once every connection has ended, everything is given back: the next run starts from the beginning. */
  lemma EverythingIsGivenBack(limits: Limits, steps: seq<Step>, s: State)
    requires Reached(limits, steps, s) && limits.perClient > 0
    requires s.stage.Idle? && s.clients == [] && s.proxied == [] && s.checked == [] && s.leaving == []
    ensures s == New(limits)
  {
    RunKeeps(limits, steps, s);
    forall b ensures b !in s.byClient {
      assert HeldBy(s.byClient, b) == Count(s.clients, b) + Count(s.leaving, b) == 0;
    }
    assert s.byClient == map[];
  }

  // ----- the object the accept loop shares with the connections

  class Places {
    const limits: Limits
    var open: nat
    var healthCheck: nat
    var byClient: map<Ip, nat>
    ghost var stage: Stage
    ghost var clients: seq<Ip>
    ghost var proxied: seq<Ip>
    ghost var checked: seq<Ip>
    ghost var leaving: seq<Ip>

    ghost function Now(): State
      reads this
    {
      State(open, healthCheck, byClient, stage, clients, proxied, checked, leaving)
    }

    ghost predicate Valid()
      reads this
    {
      Kept(limits, Now())
    }

    constructor (limits: Limits)
      ensures this.limits == limits && Now() == New(limits) && Valid()
    {
      this.limits := limits;
      open, healthCheck, byClient := limits.connections, HEALTH_CHECK_PLACES, map[];
      stage, clients, proxied, checked, leaving := Idle, [], [], [], [];
    }

    /** The permit a connection is accepted under, if one is free. */
    method Acquire() returns (permit: Permit)
      requires Valid() && Enabled(Now(), Step.Acquire)
      modifies this
      ensures Valid() && Now() == Next(limits, old(Now()), Step.Acquire) && stage == Waiting(permit)
      ensures permit.HealthCheck? <==> old(open) == 0
    {
      StepKeeps(limits, Now(), Step.Acquire);
      if open > 0 {
        open := open - 1;
        permit := Open;
      } else {
        healthCheck := healthCheck - 1;
        permit := HealthCheck;
      }
      stage := Waiting(permit);
    }

    method Release(permit: Permit)
      modifies this`open, this`healthCheck
      ensures open == old(open) + if permit.Open? then 1 else 0
      ensures healthCheck == old(healthCheck) + if permit.HealthCheck? then 1 else 0
    {
      if permit.Open? {
        open := open + 1;
      } else {
        healthCheck := healthCheck + 1;
      }
    }

    method FailAccept(permit: Permit)
      requires Valid() && stage == Waiting(permit)
      modifies this
      ensures Valid() && Now() == Next(limits, old(Now()), AcceptFailed)
    {
      StepKeeps(limits, Now(), AcceptFailed);
      Release(permit);
      stage := Idle;
    }

    /** `Some` when the place is decided; else the bucket and the share to be taken. */
    method Answer(permit: Permit, peer: Ip) returns (decided: bool, served: bool, atMost: nat)
      requires Valid() && stage == Waiting(permit)
      modifies this
      ensures Valid() && Now() == Next(limits, old(Now()), Accepted(peer))
      ensures decided <==> permit.HealthCheck? || Listed(limits.proxies, peer)
      ensures decided ==> stage.Idle? && (served <==> permit.Open? || Loopback(peer))
      ensures !decided ==> var crowded := |clients| + |proxied| >= limits.connections / 2;
        stage == Deciding(Bucket(peer), crowded) && atMost == if crowded then limits.perClient else USIZE_MAX
    {
      StepKeeps(limits, Now(), Accepted(peer));
      decided, served, atMost := true, true, 0;
      if permit.HealthCheck? {
        served := Loopback(peer);
        if served {
          checked := checked + [peer];
        } else {
          Release(permit);
        }
        stage := Idle;
      } else if Listed(limits.proxies, peer) {
        proxied := proxied + [peer];
        stage := Idle;
      } else {
        var taken: nat := limits.connections - open - 1;
        var crowded := taken >= limits.connections / 2;
        atMost := if crowded then limits.perClient else USIZE_MAX;
        decided, served := false, false;
        stage := Deciding(Bucket(peer), crowded);
      }
    }

    /** A share counted for `bucket`, unless it already holds `atMost`. */
    method CountShare(bucket: Ip, atMost: nat) returns (taken: bool)
      modifies this`byClient
      ensures taken <==> HeldBy(old(byClient), bucket) < atMost
      ensures byClient == Counted(old(byClient), bucket, taken)
    {
      if bucket !in byClient {
        byClient := byClient[bucket := 0];
      }
      taken := byClient[bucket] < atMost;
      if taken {
        byClient := byClient[bucket := byClient[bucket] + 1];
      }
    }

    method UncountShare(bucket: Ip)
      requires HeldBy(byClient, bucket) > 0
      modifies this`byClient
      ensures byClient == Returned(old(byClient), bucket)
    {
      if bucket in byClient {
        var count: nat := byClient[bucket] - 1;
        byClient := byClient[bucket := count];
        if count == 0 {
          byClient := byClient - {bucket};
        }
      }
    }

    method TakeShare(bucket: Ip, atMost: nat) returns (taken: bool)
      requires Valid() && stage.Deciding? && bucket == stage.bucket && atMost == AtMost(limits, stage.crowded)
      modifies this
      ensures Valid() && Now() == Next(limits, old(Now()), Take)
      ensures taken <==> Admits(limits, old(Now()))
    {
      StepKeeps(limits, Now(), Take);
      taken := CountShare(bucket, atMost);
      if taken {
        clients := clients + [bucket];
      } else {
        Release(Open);
      }
      stage := Idle;
      assert Now() == Next(limits, old(Now()), Take);
    }

    /** The permit goes back first, then the share. */
    method DropPermit(ghost i: nat)
      requires Valid() && i < |clients|
      modifies this
      ensures Valid() && Now() == Next(limits, old(Now()), ClientLeaves(i))
    {
      StepKeeps(limits, Now(), ClientLeaves(i));
      Release(Open);
      clients, leaving := Without(clients, i), leaving + [clients[i]];
    }

    method DropShare(bucket: Ip, ghost i: nat)
      requires Valid() && i < |leaving| && leaving[i] == bucket
      modifies this
      ensures Valid() && Now() == Next(limits, old(Now()), ShareReturned(i))
    {
      StepKeeps(limits, Now(), ShareReturned(i));
      OneLess(leaving, i, bucket);
      assert HeldBy(byClient, bucket) == Count(clients, bucket) + Count(leaving, bucket);
      UncountShare(bucket);
      leaving := Without(leaving, i);
    }
  }
}
