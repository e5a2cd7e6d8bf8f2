/**
 The simplified double ratchet (gptl-crypto, ratchet.rs), with HKDF as a free constructor: two derived keys are
 equal only if they were derived from equal inputs under the same label.
 */
module Ratchet {
  import opened Bytes

  datatype Label = RootLabel | InitiatorChain | ResponderChain | MsgKey | ChainKey | RatchetRoot | RatchetChain

  /** A shared secret, the zero salt, or the output of HKDF. */
  datatype Term = Secret(id: nat) | ZeroSalt | Hkdf(ikm: Term, salt: Term, info: Label)

  /** A DH or KEM output and its length in bytes. */
  datatype SharedSecret = SharedSecret(term: Term, len: nat)

  datatype RatchetError = SecretTooShort

  /** The three keys a party stores, and its two message counts. */
  datatype Keys = Keys(root: Term, send: Term, recv: Term, sendCount: nat, recvCount: nat)

  function MessageKey(chain: Term): Term { Hkdf(chain, chain, MsgKey) }

  function NextChain(chain: Term): Term { Hkdf(chain, chain, ChainKey) }

  function NextRoot(root: Term, dh: Term): Term { Hkdf(dh, root, RatchetRoot) }

  function FreshChain(root: Term, dh: Term): Term { Hkdf(dh, root, RatchetChain) }

  function InitialKeys(secret: Term, initiator: bool): Keys {
    var root := Hkdf(secret, ZeroSalt, RootLabel);
    var i2r, r2i := Hkdf(secret, root, InitiatorChain), Hkdf(secret, root, ResponderChain);
    Keys(root, if initiator then i2r else r2i, if initiator then r2i else i2r, 0, 0)
  }

  class KeyRatchet {
    var rootKey: Term
    var sendChainKey: Term
    var recvChainKey: Term
    var sendCount: nat
    var recvCount: nat

    function State(): Keys
      reads this
    {
      Keys(rootKey, sendChainKey, recvChainKey, sendCount, recvCount)
    }

    constructor (secret: Term, initiator: bool)
      ensures State() == InitialKeys(secret, initiator)
    {
      var root := Hkdf(secret, ZeroSalt, RootLabel);
      var i2r, r2i := Hkdf(secret, root, InitiatorChain), Hkdf(secret, root, ResponderChain);
      rootKey := root;
      sendChainKey := if initiator then i2r else r2i;
      recvChainKey := if initiator then r2i else i2r;
      sendCount, recvCount := 0, 0;
    }

    static method New(secret: SharedSecret, initiator: bool) returns (r: Result<KeyRatchet, RatchetError>)
      ensures r.Ok? <==> secret.len >= 32
      ensures r.Ok? ==> fresh(r.value) && r.value.State() == InitialKeys(secret.term, initiator)
      ensures r.Ok? ==>
                && r.value.rootKey == Hkdf(secret.term, ZeroSalt, RootLabel)
                && r.value.sendChainKey
                   == Hkdf(secret.term, r.value.rootKey, if initiator then InitiatorChain else ResponderChain)
                && r.value.recvChainKey
                   == Hkdf(secret.term, r.value.rootKey, if initiator then ResponderChain else InitiatorChain)
    {
      if secret.len < 32 { return Err(SecretTooShort); }
      var k := new KeyRatchet(secret.term, initiator);
      return Ok(k);
    }

    method NextSendKey() returns (key: Term)
      modifies this
      ensures (State(), key) == AfterSend(old(State()))
      ensures key == Hkdf(old(sendChainKey), old(sendChainKey), MsgKey)
      ensures sendChainKey == Hkdf(old(sendChainKey), old(sendChainKey), ChainKey)
    {
      key := Hkdf(sendChainKey, sendChainKey, MsgKey);
      sendChainKey := Hkdf(sendChainKey, sendChainKey, ChainKey);
      sendCount := sendCount + 1;
    }

    method NextRecvKey() returns (key: Term)
      modifies this
      ensures (State(), key) == AfterRecv(old(State()))
      ensures key == Hkdf(old(recvChainKey), old(recvChainKey), MsgKey)
      ensures recvChainKey == Hkdf(old(recvChainKey), old(recvChainKey), ChainKey)
    {
      key := Hkdf(recvChainKey, recvChainKey, MsgKey);
      recvChainKey := Hkdf(recvChainKey, recvChainKey, ChainKey);
      recvCount := recvCount + 1;
    }

    method RatchetDh(dh: SharedSecret, sending: bool) returns (r: Result<(), RatchetError>)
      modifies this
      ensures r.Ok? <==> dh.len >= 32
      ensures r.Err? ==> State() == old(State())
      ensures r.Ok? ==> State() == AfterDh(old(State()), dh.term, sending)
      ensures r.Ok? ==>
                && rootKey == Hkdf(dh.term, old(rootKey), RatchetRoot)
                && var chain := Hkdf(dh.term, old(rootKey), RatchetChain);
                   if sending then sendChainKey == chain && sendCount == 0 && recvChainKey == old(recvChainKey)
                   else recvChainKey == chain && recvCount == 0 && sendChainKey == old(sendChainKey)
    {
      if dh.len < 32 { return Err(SecretTooShort); }
      var newRoot := Hkdf(dh.term, rootKey, RatchetRoot);
      var newChain := Hkdf(dh.term, rootKey, RatchetChain);
      rootKey := newRoot;
      if sending {
        sendChainKey, sendCount := newChain, 0;
      } else {
        recvChainKey, recvCount := newChain, 0;
      }
      return Ok(());
    }
  }

  function AfterSend(k: Keys): (Keys, Term) {
    (k.(send := NextChain(k.send), sendCount := k.sendCount + 1), MessageKey(k.send))
  }

  function AfterRecv(k: Keys): (Keys, Term) {
    (k.(recv := NextChain(k.recv), recvCount := k.recvCount + 1), MessageKey(k.recv))
  }

  function AfterDh(k: Keys, dh: Term, sending: bool): Keys {
    var chain := FreshChain(k.root, dh);
    if sending then k.(root := NextRoot(k.root, dh), send := chain, sendCount := 0)
    else k.(root := NextRoot(k.root, dh), recv := chain, recvCount := 0)
  }

  // ---------------------------------------------------------------- two parties in step

  /** What travels from one party to the other, in order: a message under a key, or a new DH public key. */
  datatype Packet = Message(key: Term) | NewDh(dh: Term)

  /** Both parties, the packets in flight each way, and whether every received key has matched its message. */
  datatype Session = Session(a: Keys, b: Keys, toB: seq<Packet>, toA: seq<Packet>, matched: bool)

  datatype Action = SendMessage | SendDh(dh: Term) | Receive

  datatype Move = Move(byA: bool, action: Action)

  function Mirror(s: Session): Session {
    Session(s.b, s.a, s.toA, s.toB, s.matched)
  }

  predicate HasDh(packets: seq<Packet>) {
    exists p :: p in packets && p.NewDh?
  }

  /** A DH step may be sent only while none is in flight towards its sender. */
  predicate Allowed(s: Session, m: Move) {
    m.action.SendDh? ==> !HasDh(if m.byA then s.toA else s.toB)
  }

  /** Party A acts. */
  function ActA(s: Session, action: Action): Session {
    match action
    case SendMessage =>
      var (a, key) := AfterSend(s.a);
      s.(a := a, toB := s.toB + [Message(key)])
    case SendDh(dh) => s.(a := AfterDh(s.a, dh, true), toB := s.toB + [NewDh(dh)])
    case Receive =>
      if s.toA == [] then s
      else
        match s.toA[0]
        case Message(sent) =>
          var (a, key) := AfterRecv(s.a);
          s.(a := a, toA := s.toA[1..], matched := s.matched && key == sent)
        case NewDh(dh) => s.(a := AfterDh(s.a, dh, false), toA := s.toA[1..])
  }

  function Act(s: Session, m: Move): Session {
    if m.byA then ActA(s, m.action) else Mirror(ActA(Mirror(s), m.action))
  }

  function RunSession(s: Session, moves: seq<Move>): Session
    decreases |moves|
  {
    if moves == [] then s else RunSession(Act(s, moves[0]), moves[1..])
  }

  predicate AllAllowed(s: Session, moves: seq<Move>)
    decreases |moves|
  {
    moves != [] ==> Allowed(s, moves[0]) && AllAllowed(Act(s, moves[0]), moves[1..])
  }

  /** Root and receive chain after all packets in flight have arrived, and whether all their keys match. */
  function Drained(root: Term, recv: Term, packets: seq<Packet>): (Term, Term, bool)
    decreases |packets|
  {
    if packets == [] then (root, recv, true)
    else
      match packets[0]
      case Message(sent) =>
        var (r, c, ok) := Drained(root, NextChain(recv), packets[1..]);
        (r, c, ok && MessageKey(recv) == sent)
      case NewDh(dh) => Drained(NextRoot(root, dh), FreshChain(root, dh), packets[1..])
  }

  lemma {:induction false} DrainedSnoc(root: Term, recv: Term, packets: seq<Packet>, p: Packet)
    ensures var (r, c, ok) := Drained(root, recv, packets);
            Drained(root, recv, packets + [p])
            == match p
               case Message(sent) => (r, NextChain(c), ok && MessageKey(c) == sent)
               case NewDh(dh) => (NextRoot(r, dh), FreshChain(r, dh), ok)
    decreases |packets|
  {
    if packets == [] {
      assert packets + [p] == [p];
      assert [p][1..] == [];
    } else {
      assert (packets + [p])[1..] == packets[1..] + [p];
      match packets[0] {
        case Message(_) => DrainedSnoc(root, NextChain(recv), packets[1..], p);
        case NewDh(dh) => DrainedSnoc(NextRoot(root, dh), FreshChain(root, dh), packets[1..], p);
      }
    }
  }

  /** Without a DH packet in flight the root stays, and the chain does not depend on it. */
  lemma {:induction false} DrainedWithoutDh(root: Term, other: Term, recv: Term, packets: seq<Packet>)
    requires !HasDh(packets)
    ensures Drained(root, recv, packets).0 == root
    ensures Drained(root, recv, packets).1 == Drained(other, recv, packets).1
    ensures Drained(root, recv, packets).2 == Drained(other, recv, packets).2
    decreases |packets|
  {
    if packets != [] {
      assert packets[0] in packets;
      assert forall p :: p in packets[1..] ==> p in packets;
      DrainedWithoutDh(root, other, NextChain(recv), packets[1..]);
    }
  }

  /** How many DH steps a root has been through. */
  function RootDepth(t: Term): nat {
    if t.Hkdf? && t.info == RatchetRoot then 1 + RootDepth(t.salt) else 0
  }

  lemma RootDepthGrows(root: Term, dh: Term)
    ensures RootDepth(NextRoot(root, dh)) == RootDepth(root) + 1
  {
  }

  /** Every DH packet in flight takes the receiver's root further from where it is. */
  lemma {:induction false} DrainedDeepensRoot(root: Term, recv: Term, packets: seq<Packet>)
    ensures RootDepth(Drained(root, recv, packets).0) >= RootDepth(root)
    ensures HasDh(packets) ==> RootDepth(Drained(root, recv, packets).0) > RootDepth(root)
    decreases |packets|
  {
    if packets != [] {
      match packets[0] {
        case Message(_) =>
          DrainedDeepensRoot(root, NextChain(recv), packets[1..]);
          assert HasDh(packets) ==> HasDh(packets[1..]);
        case NewDh(dh) =>
          RootDepthGrows(root, dh);
          DrainedDeepensRoot(NextRoot(root, dh), FreshChain(root, dh), packets[1..]);
      }
    }
  }

  /** One direction is in step: once its packets arrive, the receiver's chain is the sender's. */
  ghost predicate InStep(sender: Keys, receiver: Keys, packets: seq<Packet>) {
    var (_, chain, ok) := Drained(receiver.root, receiver.recv, packets);
    chain == sender.send && ok
  }

  ghost predicate Synced(s: Session) {
    && s.matched
    && InStep(s.a, s.b, s.toB)
    && InStep(s.b, s.a, s.toA)
    && !(HasDh(s.toA) && HasDh(s.toB))
    && Drained(s.a.root, s.a.recv, s.toA).0 == Drained(s.b.root, s.b.recv, s.toB).0
  }

  lemma ActAKeepsSynced(s: Session, action: Action)
    requires Synced(s) && Allowed(s, Move(true, action))
    ensures Synced(ActA(s, action))
  {
    match action
    case SendMessage =>
      var p := Message(MessageKey(s.a.send));
      DrainedSnoc(s.b.root, s.b.recv, s.toB, p);
      assert HasDh(s.toB + [p]) ==> HasDh(s.toB);
    case SendDh(dh) =>
      DrainedSnoc(s.b.root, s.b.recv, s.toB, NewDh(dh));
      DrainedWithoutDh(s.a.root, NextRoot(s.a.root, dh), s.a.recv, s.toA);
      DrainedWithoutDh(NextRoot(s.a.root, dh), s.a.root, s.a.recv, s.toA);
    case Receive =>
      if s.toA != [] {
        assert HasDh(s.toA[1..]) ==> HasDh(s.toA);
      }
  }

  lemma {:induction false} RunKeepsSynced(s: Session, moves: seq<Move>)
    requires Synced(s) && AllAllowed(s, moves)
    ensures Synced(RunSession(s, moves))
    decreases |moves|
  {
    if moves != [] {
      var m := moves[0];
      if m.byA {
        ActAKeepsSynced(s, m.action);
      } else {
        ActAKeepsSynced(Mirror(s), m.action);
      }
      RunKeepsSynced(Act(s, m), moves[1..]);
    }
  }

  function NewSession(secret: Term): Session {
    Session(InitialKeys(secret, true), InitialKeys(secret, false), [], [], true)
  }

  /**
   Synchronisation: with opposite roles, in-order delivery and no DH step sent against one in flight, every key
   a party derives on receipt is the key its peer derived for that message, over all runs; and once nothing is
   in flight the two parties hold the same root and each other's chains.
   */
  lemma ReceivedKeysMatch(secret: Term, moves: seq<Move>)
    requires AllAllowed(NewSession(secret), moves)
    ensures var end := RunSession(NewSession(secret), moves);
            && end.matched
            && (end.toA == [] && end.toB == [] ==>
                  end.a.root == end.b.root && end.a.send == end.b.recv && end.b.send == end.a.recv)
  {
    RunKeepsSynced(NewSession(secret), moves);
  }

  /** A DH step sent against one in flight puts the sender's new chain out of its peer's reach. */
  lemma CrossingLosesStep(s: Session, dh: Term)
    requires Synced(s) && HasDh(s.toA)
    ensures var next := ActA(s, SendDh(dh)); !InStep(next.a, next.b, next.toB)
  {
    DrainedSnoc(s.b.root, s.b.recv, s.toB, NewDh(dh));
    DrainedWithoutDh(s.b.root, s.b.root, s.b.recv, s.toB);
    DrainedDeepensRoot(s.a.root, s.a.recv, s.toA);
  }

  /** The side condition is exact: a move keeps a synchronised session synchronised if and only if it is allowed. */
  lemma AllowedIsExact(s: Session, m: Move)
    requires Synced(s)
    ensures Synced(Act(s, m)) <==> Allowed(s, m)
  {
    var t := if m.byA then s else Mirror(s);
    if Allowed(s, m) {
      ActAKeepsSynced(t, m.action);
    } else {
      CrossingLosesStep(t, m.action.dh);
    }
  }

  /**
   What the loss looks like: from any synchronised session with nothing in flight, two crossing DH steps
   leave each party's next message under a key that its peer does not derive.
   */
  lemma CrossingDhBreaksSync(s: Session, dhA: Term, dhB: Term)
    requires Synced(s) && s.toA == [] && s.toB == []
    ensures var crossed := RunSession(s, [Move(true, SendDh(dhA)), Move(false, SendDh(dhB)),
                                          Move(true, Receive), Move(false, Receive)]);
            && crossed.toA == [] && crossed.toB == []
            && AfterSend(crossed.b).1 != AfterRecv(crossed.a).1
            && AfterSend(crossed.a).1 != AfterRecv(crossed.b).1
  {
    var s1 := Act(s, Move(true, SendDh(dhA)));
    var s2 := Act(s1, Move(false, SendDh(dhB)));
    var s3 := Act(s2, Move(true, Receive));
    var s4 := Act(s3, Move(false, Receive));
    var moves := [Move(true, SendDh(dhA)), Move(false, SendDh(dhB)), Move(true, Receive), Move(false, Receive)];
    assert moves[1..][1..][1..][1..] == [];
    assert moves[1..][0] == moves[1] && moves[1..][1..][0] == moves[2] && moves[1..][1..][1..][0] == moves[3];
    assert RunSession(s, moves) == RunSession(s1, moves[1..]) == RunSession(s2, moves[1..][1..])
        == RunSession(s3, moves[1..][1..][1..]) == RunSession(s4, moves[1..][1..][1..][1..]) == s4;
    NotOwnRoot(s.a.root, dhA);
    NotOwnRoot(s.a.root, dhB);
  }

  lemma NotOwnRoot(root: Term, dh: Term)
    ensures NextRoot(root, dh) != root
  {
    RootDepthGrows(root, dh);
  }

  // ---------------------------------------------------------------- secrecy

  /** What an attacker who knows `known`, the public salt and HKDF can compute. */
  ghost predicate Derivable(known: set<Term>, t: Term) {
    || t in known
    || t == ZeroSalt
    || (t.Hkdf? && Derivable(known, t.ikm) && Derivable(known, t.salt))
  }

  function Stored(k: Keys): set<Term> {
    {k.root, k.send, k.recv}
  }

  /** The start of the chain that a chain key is on, and its position there. */
  function Base(t: Term): Term {
    if t.Hkdf? && t.info == ChainKey then Base(t.ikm) else t
  }

  function Position(t: Term): nat {
    if t.Hkdf? && t.info == ChainKey then 1 + Position(t.ikm) else 0
  }

  /** A chain key: any number of steps from a chain started by a secret. */
  predicate IsChain(t: Term) {
    && t.Hkdf?
    && if t.info == ChainKey then t.ikm == t.salt && IsChain(t.ikm)
       else t.ikm.Secret? && (t.info == InitiatorChain || t.info == ResponderChain || t.info == RatchetChain)
  }

  predicate IsRoot(t: Term) {
    && t.Hkdf? && t.ikm.Secret?
    && (t.info == RootLabel || t.info == RatchetRoot)
  }

  lemma {:induction false} ChainDetermined(c: Term, d: Term)
    requires IsChain(c) && IsChain(d) && Base(c) == Base(d) && Position(c) == Position(d)
    ensures c == d
  {
    if c.info == ChainKey {
      ChainDetermined(c.ikm, d.ikm);
    }
  }

  /** A chain key is computed only from itself or from an earlier key of the same chain. */
  lemma {:induction false} DerivedFromEarlier(known: set<Term>, c: Term)
    requires IsChain(c) && Derivable(known, c)
    requires forall t :: t in known ==> !t.Secret?
    ensures exists t :: t in known && IsChain(t) && Base(t) == Base(c) && Position(t) <= Position(c)
  {
    if c !in known && c.info == ChainKey {
      DerivedFromEarlier(known, c.ikm);
    }
  }

  // One party's operations; `dh` identifies the secret that a DH step mixes in.
  datatype Op = SendOp | RecvOp | DhOp(dh: nat, sending: bool)

  /** A party's keys and the chain keys it has used so far. */
  datatype Party = Party(keys: Keys, used: seq<Term>)

  function Apply(p: Party, op: Op): Party {
    match op
    case SendOp => Party(AfterSend(p.keys).0, p.used + [p.keys.send])
    case RecvOp => Party(AfterRecv(p.keys).0, p.used + [p.keys.recv])
    case DhOp(dh, sending) => p.(keys := AfterDh(p.keys, Secret(dh), sending))
  }

  function ApplyAll(p: Party, ops: seq<Op>): Party
    decreases |ops|
  {
    if ops == [] then p else ApplyAll(Apply(p, ops[0]), ops[1..])
  }

  function NewParty(secret: nat, initiator: bool): Party {
    Party(InitialKeys(Secret(secret), initiator), [])
  }

  /** The message keys a party has derived, in order. */
  function MessageKeys(p: Party): (m: seq<Term>)
    ensures |m| == |p.used|
  {
    seq(|p.used|, i requires 0 <= i < |p.used| => MessageKey(p.used[i]))
  }

  /** A chain that started before the current root. */
  predicate Older(c: Term, root: Term) {
    && IsChain(c)
    && (Base(c).Hkdf? && Base(c).info == RatchetChain ==> RootDepth(Base(c).salt) < RootDepth(root))
  }

  predicate Spent(c: Term, current: Term) {
    Base(c) == Base(current) ==> Position(c) < Position(current)
  }

  ghost predicate PartyInv(p: Party) {
    && IsRoot(p.keys.root)
    && Older(p.keys.send, p.keys.root) && Older(p.keys.recv, p.keys.root)
    && Base(p.keys.send) != Base(p.keys.recv)
    && (forall c :: c in p.used ==> Older(c, p.keys.root) && Spent(c, p.keys.send) && Spent(c, p.keys.recv))
    && (forall i, j :: 0 <= i < j < |p.used| ==> p.used[i] != p.used[j])
  }

  lemma ApplyKeepsInv(p: Party, op: Op)
    requires PartyInv(p)
    ensures PartyInv(Apply(p, op))
  {
    if op.DhOp? {
      RootDepthGrows(p.keys.root, Secret(op.dh));
    }
  }

  lemma {:induction false} ApplyAllKeepsInv(p: Party, ops: seq<Op>)
    requires PartyInv(p)
    ensures PartyInv(ApplyAll(p, ops))
    decreases |ops|
  {
    if ops != [] {
      ApplyKeepsInv(p, ops[0]);
      ApplyAllKeepsInv(Apply(p, ops[0]), ops[1..]);
    }
  }

  /** Over any run each count is the number of steps its chain has taken since it was started. */
  lemma {:induction false} CountsArePositions(p: Party, ops: seq<Op>)
    requires p.keys.sendCount == Position(p.keys.send) && p.keys.recvCount == Position(p.keys.recv)
    ensures var end := ApplyAll(p, ops).keys;
            end.sendCount == Position(end.send) && end.recvCount == Position(end.recv)
    decreases |ops|
  {
    if ops != [] { CountsArePositions(Apply(p, ops[0]), ops[1..]); }
  }

  lemma CountsFromStart(secret: nat, initiator: bool, ops: seq<Op>)
    ensures var end := ApplyAll(NewParty(secret, initiator), ops).keys;
            end.sendCount == Position(end.send) && end.recvCount == Position(end.recv)
  {
    CountsArePositions(NewParty(secret, initiator), ops);
  }

  /** Everything a party stores, and every message key it has ever derived. */
  function Seen(p: Party): set<Term> {
    Stored(p.keys) + (set m | m in MessageKeys(p))
  }

  /** The only chain keys in sight are the two current ones. */
  lemma ChainsSeen(p: Party)
    requires PartyInv(p)
    ensures forall t :: t in Seen(p) ==> !t.Secret? && (IsChain(t) ==> t == p.keys.send || t == p.keys.recv)
    ensures forall c :: MessageKey(c) in Seen(p) <==> c in p.used
  {
    var keys := MessageKeys(p);
    forall c ensures MessageKey(c) in Seen(p) <==> c in p.used {
      if c in p.used {
        var k :| 0 <= k < |p.used| && p.used[k] == c;
        assert keys[k] == MessageKey(c);
      }
    }
  }

  /**
   Forward secrecy: after any run, no message key derived so far can be computed from the stored root, send and
   receive keys, not even together with all the other message keys.
   */
  lemma ForwardSecrecy(secret: nat, initiator: bool, ops: seq<Op>, i: nat)
    requires i < |ApplyAll(NewParty(secret, initiator), ops).used|
    ensures var end := ApplyAll(NewParty(secret, initiator), ops);
            var target := MessageKeys(end)[i];
            target in Seen(end) && !Derivable(Seen(end) - {target}, target)
  {
    var end := ApplyAll(NewParty(secret, initiator), ops);
    ApplyAllKeepsInv(NewParty(secret, initiator), ops);
    ChainsSeen(end);
    var c := end.used[i];
    assert c in end.used;
    if Derivable(Seen(end) - {MessageKey(c)}, MessageKey(c)) {
      DerivedFromEarlier(Seen(end) - {MessageKey(c)}, c);
    }
  }

  /** All message keys that one party derives, on both of its chains, are pairwise distinct. */
  lemma MessageKeysDistinct(secret: nat, initiator: bool, ops: seq<Op>, i: nat, j: nat)
    requires i < j < |ApplyAll(NewParty(secret, initiator), ops).used|
    ensures var keys := MessageKeys(ApplyAll(NewParty(secret, initiator), ops)); keys[i] != keys[j]
  {
    ApplyAllKeepsInv(NewParty(secret, initiator), ops);
  }

  /**
   Recovery: whoever has seen the stored keys and all message keys so far, but not a DH output mixed in afterwards,
   cannot compute any key of the chain that this DH step starts.
   */
  lemma RecoveryAfterDh(secret: nat, initiator: bool, ops: seq<Op>, dh: nat, c: Term)
    requires IsChain(c)
    requires Base(c) == FreshChain(ApplyAll(NewParty(secret, initiator), ops).keys.root, Secret(dh))
    ensures !Derivable(Seen(ApplyAll(NewParty(secret, initiator), ops)), MessageKey(c))
  {
    var seen := ApplyAll(NewParty(secret, initiator), ops);
    ApplyAllKeepsInv(NewParty(secret, initiator), ops);
    ChainsSeen(seen);
    if Derivable(Seen(seen), MessageKey(c)) {
      DerivedFromEarlier(Seen(seen), c);
    }
  }
}
