/** Replay protection of the relay (crates/plugkill-relay/src/crypto.rs and
    listener.rs): a bounded memory of nonces behind a time window. */
module Replay {
  import opened Utf8
  import opened Wire

  const NONCE_CACHE_SIZE: nat := 1000
  const TIMESTAMP_WINDOW_SECS: nat := 5

  // ----- the nonce memory -----------------------------------------------------------

  function Remember(seen: seq<Nonce>, nonce: Nonce): seq<Nonce> {
    (if |seen| >= NONCE_CACHE_SIZE then seen[1..] else seen) + [nonce]
  }

  /** The most recent `NONCE_CACHE_SIZE` of `nonces`. */
  function Recent(nonces: seq<Nonce>): seq<Nonce> {
    if |nonces| <= NONCE_CACHE_SIZE then nonces else nonces[|nonces| - NONCE_CACHE_SIZE..]
  }

  lemma RememberIsRecent(nonces: seq<Nonce>, nonce: Nonce)
    ensures Remember(Recent(nonces), nonce) == Recent(nonces + [nonce])
  {
  }

  class NonceCache {
    var seen: seq<Nonce>

    constructor ()
      ensures seen == []
    {
      seen := [];
    }

    /** Whether the nonce was already there; a new one is inserted, and the
        oldest makes room for it when the memory is full. */
    method CheckAndInsert(nonce: Nonce) returns (dup: bool)
      modifies this
      ensures dup == (nonce in old(seen))
      ensures seen == if dup then old(seen) else Remember(old(seen), nonce)
    {
      if nonce in seen {
        return true;
      }
      if |seen| >= NONCE_CACHE_SIZE {
        seen := seen[1..];
      }
      seen := seen + [nonce];
      dup := false;
    }
  }

  // ----- the listener -----------------------------------------------------------------

  /** One received datagram and the clock, in seconds, when it is looked at. */
  datatype Input = Input(data: seq<Byte>, now: nat)

  /** The peers' decoded public keys, and what the signature check says. */
  datatype Config = Config(peers: set<Key>, verify: (Key, seq<Byte>, Signature) -> bool, dryRun: bool)

  datatype Action =
    | SendAck(nonce: Nonce)
    | FanOut(relayed: seq<Byte>, except_: Key)
    | TriggerLocalKill(reason: Str)

  function AbsDiff(a: nat, b: nat): nat {
    if a >= b then a - b else b - a
  }

  /** From a known peer, with a valid signature, and fresh by the clock. */
  predicate Authentic(cfg: Config, input: Input) {
    var parsed := Deserialize(input.data);
    && parsed.Ok?
    && parsed.value.packet.sender in cfg.peers
    && cfg.verify(parsed.value.packet.sender, parsed.value.message, parsed.value.signature)
    && AbsDiff(input.now, parsed.value.packet.timestamp) <= TIMESTAMP_WINDOW_SECS
  }

  function PacketOf(cfg: Config, input: Input): Packet
    requires Authentic(cfg, input)
  {
    Deserialize(input.data).value.packet
  }

  const RELAY_PREFIX: seq<Byte> := [0x72, 0x65, 0x6C, 0x61, 0x79, 0x3A]

  function Acts(cfg: Config, packet: Packet): seq<Action> {
    if packet.kind == Ack then []
    else if cfg.dryRun then [SendAck(packet.nonce)]
    else [SendAck(packet.nonce), FanOut(RELAY_PREFIX + packet.reason, packet.sender), TriggerLocalKill(packet.reason)]
  }

  // ----- runs ----------------------------------------------------------------------------

  /** One input, judged after the packets accepted so far: it counts if it is
      authentic and its nonce is not among the last 1000 accepted ones. */
  function Next(cfg: Config, before: seq<(Packet, nat)>, input: Input): seq<(Packet, nat)> {
    if Authentic(cfg, input) && PacketOf(cfg, input).nonce !in Recent(Nonces(before))
    then before + [(PacketOf(cfg, input), input.now)] else before
  }

  /** The packets accepted in a run, in order, each with its time. */
  function Accepted(cfg: Config, inputs: seq<Input>): seq<(Packet, nat)> {
    if inputs == [] then [] else Next(cfg, Accepted(cfg, inputs[..|inputs| - 1]), inputs[|inputs| - 1])
  }

  function Nonces(accepted: seq<(Packet, nat)>): (nonces: seq<Nonce>)
    ensures |nonces| == |accepted|
    ensures forall i :: 0 <= i < |accepted| ==> nonces[i] == accepted[i].0.nonce
  {
    if accepted == [] then [] else Nonces(accepted[..|accepted| - 1]) + [accepted[|accepted| - 1].0.nonce]
  }

  function ActsOfAll(cfg: Config, accepted: seq<(Packet, nat)>): seq<Action> {
    if accepted == [] then []
    else ActsOfAll(cfg, accepted[..|accepted| - 1]) + Acts(cfg, accepted[|accepted| - 1].0)
  }

  /** One turn of the receive loop. */
  method Receive(cfg: Config, cache: NonceCache, input: Input, ghost before: seq<(Packet, nat)>)
    returns (actions: seq<Action>)
    requires cache.seen == Recent(Nonces(before))
    modifies cache
    ensures cache.seen == Recent(Nonces(Next(cfg, before, input)))
    ensures ActsOfAll(cfg, Next(cfg, before, input)) == ActsOfAll(cfg, before) + actions
  {
    actions := [];
    var parsed := Deserialize(input.data);
    if parsed.Err? {
      return;
    }
    var packet := parsed.value.packet;
    if packet.sender !in cfg.peers {
      return;
    }
    if !cfg.verify(packet.sender, parsed.value.message, parsed.value.signature) {
      return;
    }
    if AbsDiff(input.now, packet.timestamp) > TIMESTAMP_WINDOW_SECS {
      return;
    }
    var dup := cache.CheckAndInsert(packet.nonce);
    if dup {
      return;
    }
    AcceptOne(cfg, before, packet, input.now);
    actions := Act(cfg, packet);
  }

  /** An acknowledgement asks for nothing; a kill is acknowledged, passed on to
      the other peers and carried out here, the last two not on a dry run. */
  method Act(cfg: Config, packet: Packet) returns (actions: seq<Action>)
    ensures actions == Acts(cfg, packet)
  {
    actions := [];
    match packet.kind {
      case Kill =>
        actions := actions + [SendAck(packet.nonce)];
        if !cfg.dryRun {
          actions := actions + [FanOut(RELAY_PREFIX + packet.reason, packet.sender)];
          actions := actions + [TriggerLocalKill(packet.reason)];
        }
      case Ack =>
    }
  }

  /** The receive loop, over everything it receives until shutdown: it acts on
      exactly the accepted packets, once each and in order. */
  method Run(cfg: Config, inputs: seq<Input>) returns (actions: seq<Action>)
    ensures actions == ActsOfAll(cfg, Accepted(cfg, inputs))
  {
    var cache := new NonceCache();
    actions := [];
    for i := 0 to |inputs|
      invariant cache.seen == Recent(Nonces(Accepted(cfg, inputs[..i])))
      invariant actions == ActsOfAll(cfg, Accepted(cfg, inputs[..i]))
    {
      assert inputs[..i + 1][..i] == inputs[..i];
      var more := Receive(cfg, cache, inputs[i], Accepted(cfg, inputs[..i]));
      actions := actions + more;
    }
    assert inputs[..|inputs|] == inputs;
  }

  lemma AcceptOne(cfg: Config, before: seq<(Packet, nat)>, packet: Packet, now: nat)
    ensures Remember(Recent(Nonces(before)), packet.nonce) == Recent(Nonces(before + [(packet, now)]))
    ensures ActsOfAll(cfg, before + [(packet, now)]) == ActsOfAll(cfg, before) + Acts(cfg, packet)
  {
    assert (before + [(packet, now)])[..|before|] == before;
    RememberIsRecent(Nonces(before), packet.nonce);
  }

  /** One more datagram is accepted exactly when it parses, names a known peer,
      is signed by it, is at most five seconds off the clock, and its nonce is not
      among those of the last thousand accepted packets; otherwise nothing
      changes. */
  lemma OneMoreDatagram(cfg: Config, inputs: seq<Input>, input: Input)
    ensures var (before, after) := (Accepted(cfg, inputs), Accepted(cfg, inputs + [input]));
            var r := Deserialize(input.data);
            if && r.Ok? && r.value.packet.sender in cfg.peers
               && cfg.verify(r.value.packet.sender, r.value.message, r.value.signature)
               && r.value.packet.timestamp <= input.now + 5 && input.now <= r.value.packet.timestamp + 5
               && forall i :: |before| - 1000 <= i < |before| && 0 <= i ==> before[i].0.nonce != r.value.packet.nonce
            then after == before + [(r.value.packet, input.now)]
            else after == before
  {
    var before, r := Accepted(cfg, inputs), Deserialize(input.data);
    assert (inputs + [input])[..|inputs|] == inputs;
    var nonces := Nonces(before);
    if r.Ok? && r.value.packet.nonce in Recent(nonces) {
      var k := RecentIsThere(nonces, r.value.packet.nonce);
    } else if r.Ok? {
      forall i | |before| - 1000 <= i < |before| && 0 <= i ensures before[i].0.nonce != r.value.packet.nonce {
        assert Recent(nonces)[if |nonces| <= 1000 then i else i - (|nonces| - 1000)] == nonces[i];
      }
    }
  }

  // ----- the replay bound ------------------------------------------------------------------

  /** Any 1001 consecutive accepted nonces are pairwise distinct. */
  lemma {:induction false} NearbyNoncesDiffer(cfg: Config, inputs: seq<Input>, i: nat, j: nat)
    requires i < j < |Accepted(cfg, inputs)| && j - i <= 1000
    ensures Accepted(cfg, inputs)[i].0.nonce != Accepted(cfg, inputs)[j].0.nonce
  {
    var before := Accepted(cfg, inputs[..|inputs| - 1]);
    if j < |before| {
      NearbyNoncesDiffer(cfg, inputs[..|inputs| - 1], i, j);
    } else {
      var nonces := Nonces(before);
      var at := if |nonces| <= NONCE_CACHE_SIZE then i else i - (|nonces| - NONCE_CACHE_SIZE);
      assert Recent(nonces)[at] == nonces[i];
    }
  }

  /** Every accepted packet was read from a datagram of the run that names a known
      peer, carries a signature the check accepts for that peer over exactly the
      bytes read, and is at most five seconds off the clock. */
  lemma {:induction false} AcceptedAreAuthentic(cfg: Config, inputs: seq<Input>, i: nat) returns (k: nat)
    requires i < |Accepted(cfg, inputs)|
    ensures k < |inputs| && Deserialize(inputs[k].data).Ok?
    ensures var (parsed, now) := (Deserialize(inputs[k].data).value, inputs[k].now);
            && Accepted(cfg, inputs)[i] == (parsed.packet, now)
            && parsed.packet.sender in cfg.peers
            && cfg.verify(parsed.packet.sender, parsed.message, parsed.signature)
            && parsed.packet.timestamp <= now + 5 && now <= parsed.packet.timestamp + 5
  {
    if i < |Accepted(cfg, inputs[..|inputs| - 1])| {
      k := AcceptedAreAuthentic(cfg, inputs[..|inputs| - 1], i);
    } else {
      k := |inputs| - 1;
    }
  }

  /** An input of the run that carries the `k`-th accepted packet, signed by a
      known peer. */
  ghost predicate CameIn(cfg: Config, inputs: seq<Input>, k: nat)
    requires k < |Accepted(cfg, inputs)|
  {
    exists n {:trigger inputs[n]} ::
      && 0 <= n < |inputs| && Deserialize(inputs[n].data).Ok?
      && var (parsed, now) := (Deserialize(inputs[n].data).value, inputs[n].now);
         && parsed.packet.sender in cfg.peers
         && cfg.verify(parsed.packet.sender, parsed.message, parsed.signature)
         && Accepted(cfg, inputs)[k] == (parsed.packet, now)
  }

  /** A packet accepted twice: the two times are at most ten seconds apart, and
      a thousand other packets were accepted in between, each authentic, with
      nonces all different from one another and from the repeated one. */
  lemma ReplayBound(cfg: Config, inputs: seq<Input>, i: nat, j: nat)
    requires i < j < |Accepted(cfg, inputs)|
    requires Accepted(cfg, inputs)[i].0 == Accepted(cfg, inputs)[j].0
    ensures var accepted := Accepted(cfg, inputs);
            && accepted[i].1 <= accepted[j].1 + 10 && accepted[j].1 <= accepted[i].1 + 10
            && j - i > 1000
            && forall k, l :: i <= k < l <= i + 1000 ==> accepted[k].0.nonce != accepted[l].0.nonce
    ensures forall k :: i <= k <= j ==> CameIn(cfg, inputs, k)
  {
    var accepted := Accepted(cfg, inputs);
    var first := AcceptedAreAuthentic(cfg, inputs, i);
    var second := AcceptedAreAuthentic(cfg, inputs, j);
    if j - i <= NONCE_CACHE_SIZE {
      NearbyNoncesDiffer(cfg, inputs, i, j);
    }
    forall k, l | i <= k < l <= i + NONCE_CACHE_SIZE ensures accepted[k].0.nonce != accepted[l].0.nonce {
      NearbyNoncesDiffer(cfg, inputs, k, l);
    }
    forall k | i <= k <= j ensures CameIn(cfg, inputs, k) {
      var n := AcceptedAreAuthentic(cfg, inputs, k);
      assert Deserialize(inputs[n].data).Ok?;
    }
  }

  // ----- what a run does ---------------------------------------------------------------------

  /** What is accepted stays accepted. */
  lemma {:induction false} AcceptedGrows(cfg: Config, inputs: seq<Input>, m: nat)
    requires m <= |inputs|
    ensures Accepted(cfg, inputs[..m]) <= Accepted(cfg, inputs)
  {
    if m == |inputs| {
      assert inputs[..m] == inputs;
    } else {
      var shorter := inputs[..|inputs| - 1];
      AcceptedGrows(cfg, shorter, m);
      assert shorter[..m] == inputs[..m];
    }
  }

  lemma RecentIsThere(nonces: seq<Nonce>, nonce: Nonce) returns (k: nat)
    requires nonce in Recent(nonces)
    ensures k < |nonces| && nonces[k] == nonce && |nonces| - 1000 <= k
  {
    var recent := Recent(nonces);
    var at :| 0 <= at < |recent| && recent[at] == nonce;
    k := at + |nonces| - |recent|;
  }

  /** No authentic datagram goes unanswered: its nonce is among the accepted
      ones, newly or as one of the thousand before it. */
  lemma AuthenticIsAnswered(cfg: Config, inputs: seq<Input>, m: nat) returns (k: nat)
    requires m < |inputs| && Deserialize(inputs[m].data).Ok?
    requires var (parsed, now) := (Deserialize(inputs[m].data).value, inputs[m].now);
             && parsed.packet.sender in cfg.peers
             && cfg.verify(parsed.packet.sender, parsed.message, parsed.signature)
             && parsed.packet.timestamp <= now + 5 && now <= parsed.packet.timestamp + 5
    ensures k < |Accepted(cfg, inputs)|
    ensures Accepted(cfg, inputs)[k].0.nonce == Deserialize(inputs[m].data).value.packet.nonce
    ensures |Accepted(cfg, inputs[..m])| - 1000 <= k <= |Accepted(cfg, inputs[..m])|
  {
    var before, after := Accepted(cfg, inputs[..m]), Accepted(cfg, inputs[..m + 1]);
    assert inputs[..m + 1][..m] == inputs[..m];
    AcceptedGrows(cfg, inputs, m);
    AcceptedGrows(cfg, inputs, m + 1);
    var nonce := PacketOf(cfg, inputs[m]).nonce;
    if nonce in Recent(Nonces(before)) {
      k := RecentIsThere(Nonces(before), nonce);
      assert Accepted(cfg, inputs)[k] == before[k];
    } else {
      k := |before|;
      assert Accepted(cfg, inputs)[k] == after[k];
    }
  }

  /** An accepted kill calls for its acknowledgement, and unless it is a dry run
      for telling every peer but its sender, and for the local kill. */
  predicate CallsFor(cfg: Config, packet: Packet, action: Action) {
    packet.kind == Kill &&
    match action
    case SendAck(nonce) => nonce == packet.nonce
    case FanOut(relayed, sender) => !cfg.dryRun && relayed == RELAY_PREFIX + packet.reason && sender == packet.sender
    case TriggerLocalKill(reason) => !cfg.dryRun && reason == packet.reason
  }

  /** How many of the accepted packets call for it. */
  function Callers(cfg: Config, accepted: seq<(Packet, nat)>, action: Action): nat {
    if accepted == [] then 0
    else
      Callers(cfg, accepted[..|accepted| - 1], action)
      + if CallsFor(cfg, accepted[|accepted| - 1].0, action) then 1 else 0
  }

  lemma {:induction false} ActionsAreCalledFor(cfg: Config, accepted: seq<(Packet, nat)>, action: Action)
    ensures multiset(ActsOfAll(cfg, accepted))[action] == Callers(cfg, accepted, action)
  {
    if accepted != [] {
      var n := |accepted| - 1;
      ActionsAreCalledFor(cfg, accepted[..n], action);
      OnePacketActs(cfg, accepted[n].0, action);
    }
  }

  lemma OnePacketActs(cfg: Config, packet: Packet, action: Action)
    ensures multiset(Acts(cfg, packet))[action] == if CallsFor(cfg, packet, action) then 1 else 0
  {
  }

  /** Over a whole run: each action is taken exactly as often as an accepted kill
      calls for it. So the local kill runs once for each accepted kill and never
      on a dry run, every acknowledgement answers one, nothing is relayed back
      to its sender, and acknowledgements cause nothing. */
  lemma ActionsOfARun(cfg: Config, inputs: seq<Input>, action: Action)
    ensures multiset(ActsOfAll(cfg, Accepted(cfg, inputs)))[action] == Callers(cfg, Accepted(cfg, inputs), action)
    ensures cfg.dryRun && !action.SendAck? ==> action !in ActsOfAll(cfg, Accepted(cfg, inputs))
  {
    ActionsAreCalledFor(cfg, Accepted(cfg, inputs), action);
    if cfg.dryRun && !action.SendAck? {
      NobodyCalls(cfg, Accepted(cfg, inputs), action);
    }
  }

  lemma {:induction false} NobodyCalls(cfg: Config, accepted: seq<(Packet, nat)>, action: Action)
    requires forall p: Packet :: !CallsFor(cfg, p, action)
    ensures Callers(cfg, accepted, action) == 0
  {
    if accepted != [] {
      NobodyCalls(cfg, accepted[..|accepted| - 1], action);
    }
  }

  /** The peers are told before the machine goes down: right before each local
      kill come its acknowledgement and its relaying. */
  lemma {:induction false} KillComesLast(cfg: Config, accepted: seq<(Packet, nat)>, j: nat)
    requires j < |ActsOfAll(cfg, accepted)| && ActsOfAll(cfg, accepted)[j].TriggerLocalKill?
    ensures var actions := ActsOfAll(cfg, accepted);
            && j >= 2 && actions[j - 2].SendAck?
            && actions[j - 1].FanOut?
            && actions[j - 1].relayed == [0x72, 0x65, 0x6C, 0x61, 0x79, 0x3A] + actions[j].reason
  {
    var n := |accepted| - 1;
    var before, last := ActsOfAll(cfg, accepted[..n]), Acts(cfg, accepted[n].0);
    if j < |before| {
      KillComesLast(cfg, accepted[..n], j);
    } else {
      assert ActsOfAll(cfg, accepted)[j] == last[j - |before|];
    }
  }
}
