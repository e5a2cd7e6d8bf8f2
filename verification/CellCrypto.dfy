/**
 Per-direction cell ciphers with counter nonces (gptl-transport, crypto.rs).

 The AEAD is an arbitrary pair of functions that satisfies `Aead.Ideal`; `ToyAead` shows that the
 assumption can be met. What the cipher promises against an arbitrary network is stated about `Link`,
 one sealing cipher and the opening cipher that mirrors it.
 */
module CellCrypto {
  import opened Bytes
  import opened Cells

  const TAG_LEN := 16

  datatype Key = Key(id: U32)

  type Nonce = n: seq<Byte> | |n| == 12 witness Zeros(12)

  datatype Aead = Aead(
    seal: (Key, Nonce, seq<Byte>) -> seq<Byte>,
    open: (Key, Nonce, seq<Byte>) -> Option<seq<Byte>>)
  {
    /** Opening inverts sealing and accepts nothing else; the tag is 16 bytes. */
    ghost predicate Ideal() {
      && (forall k, n, p :: |seal(k, n, p)| == |p| + TAG_LEN)
      && (forall k, n, p :: open(k, n, seal(k, n, p)) == Some(p))
      && (forall k, n, c :: open(k, n, c).Some? ==> c == seal(k, n, open(k, n, c).value))
    }
  }

  datatype CryptoError = NonceExhausted | TagMismatch

  /** The counter in big-endian, followed by four zero bytes. */
  function NonceFor(counter: U64): Nonce {
    U64Bytes(counter) + [0, 0, 0, 0]
  }

  lemma NonceInjective(a: U64, b: U64)
    requires NonceFor(a) == NonceFor(b)
    ensures a == b
  {
    assert NonceFor(a)[..8] == U64Bytes(a) && NonceFor(b)[..8] == U64Bytes(b);
    U64RoundTrip(a);
    U64RoundTrip(b);
  }

  /** The counter with its most significant byte first, then four zeros. */
  lemma NonceLayout(counter: U64)
    ensures var n := NonceFor(counter);
            && BigEndian(n[..8]) == counter
            && n[8] == n[9] == n[10] == n[11] == 0
  {
    U64Layout(counter);
    assert NonceFor(counter)[..8] == U64Bytes(counter);
  }

  // ---------------------------------------------------------------- one cipher

  /** Sealing under the current counter; the last counter value is never used. */
  function SealAt(aead: Aead, key: Key, counter: U64, plain: seq<Byte>): Result<seq<Byte>, CryptoError> {
    if counter == U64_MAX then Err(NonceExhausted) else Ok(aead.seal(key, NonceFor(counter), plain))
  }

  /** Opening under the current counter. A failure leaves the counter alone. */
  function OpenAt(aead: Aead, key: Key, counter: U64, ct: seq<Byte>): Result<seq<Byte>, CryptoError> {
    match aead.open(key, NonceFor(counter), ct)
    case None => Err(TagMismatch)
    case Some(plain) => if counter == U64_MAX then Err(NonceExhausted) else Ok(plain)
  }

  /** The counter after a call that returned `r`. */
  function Advanced<T>(counter: U64, r: Result<T, CryptoError>): (next: U64)
    requires r.Ok? ==> counter < U64_MAX
  {
    if r.Ok? then counter + 1 else counter
  }

  class CellCipher {
    const aead: Aead
    const key: Key
    var counter: U64

    constructor (aead: Aead, key: Key)
      ensures this.aead == aead && this.key == key && counter == 0
    {
      this.aead := aead;
      this.key := key;
      counter := 0;
    }

    method Advance() returns (r: Result<(), CryptoError>)
      modifies this
      ensures r.Ok? <==> old(counter) < U64_MAX
      ensures r.Err? ==> r.error == NonceExhausted
      ensures counter == Advanced(old(counter), r)
    {
      if counter == U64_MAX { return Err(NonceExhausted); }
      counter := counter + 1;
      return Ok(());
    }

    method NextNonce() returns (r: Result<Nonce, CryptoError>)
      modifies this
      ensures r == if old(counter) == U64_MAX then Err(NonceExhausted) else Ok(NonceFor(old(counter)))
      ensures counter == Advanced(old(counter), r)
    {
      var nonce := NonceFor(counter);
      var a := Advance();
      if a.Err? { return Err(a.error); }
      return Ok(nonce);
    }

    method SealBuffer(plain: seq<Byte>) returns (r: Result<seq<Byte>, CryptoError>)
      modifies this
      ensures r == SealAt(aead, key, old(counter), plain)
      ensures counter == Advanced(old(counter), r)
    {
      var nonce := NextNonce();
      if nonce.Err? { return Err(nonce.error); }
      return Ok(aead.seal(key, nonce.value, plain));
    }

    method OpenBuffer(ct: seq<Byte>) returns (r: Result<seq<Byte>, CryptoError>)
      modifies this
      ensures r == OpenAt(aead, key, old(counter), ct)
      ensures counter == Advanced(old(counter), r)
    {
      match aead.open(key, NonceFor(counter), ct) {
        case None => return Err(TagMismatch);
        case Some(plain) =>
          var a := Advance();
          if a.Err? { return Err(a.error); }
          return Ok(plain);
      }
    }

    /** 491 bytes of plaintext to a 507-byte cell payload. */
    method Encrypt(plain: seq<Byte>) returns (r: Result<seq<Byte>, CryptoError>)
      requires aead.Ideal() && |plain| == RELAY_PLAINTEXT_LEN
      modifies this
      ensures r == SealAt(aead, key, old(counter), plain)
      ensures r.Ok? ==> |r.value| == CELL_PAYLOAD_LEN
      ensures counter == Advanced(old(counter), r)
    {
      r := SealBuffer(plain);
    }

    method Decrypt(ct: seq<Byte>) returns (r: Result<seq<Byte>, CryptoError>)
      requires aead.Ideal() && |ct| == CELL_PAYLOAD_LEN
      modifies this
      ensures r == OpenAt(aead, key, old(counter), ct)
      ensures r == Err(TagMismatch) <==> aead.open(key, NonceFor(old(counter)), ct).None?
      ensures r.Ok? ==> |r.value| == RELAY_PLAINTEXT_LEN
      ensures counter == Advanced(old(counter), r)
    {
      r := OpenBuffer(ct);
    }

    /** 470 bytes of plaintext to the 486 bytes that fill a Forward cell. */
    method EncryptInner(plain: seq<Byte>) returns (r: Result<seq<Byte>, CryptoError>)
      requires aead.Ideal() && |plain| == RELAY_INNER_PLAINTEXT_LEN
      modifies this
      ensures r == SealAt(aead, key, old(counter), plain)
      ensures r.Ok? ==> |r.value| == RELAY_INNER_CT_LEN
      ensures counter == Advanced(old(counter), r)
    {
      r := SealBuffer(plain);
    }

    method DecryptInner(ct: seq<Byte>) returns (r: Result<seq<Byte>, CryptoError>)
      requires aead.Ideal() && |ct| == RELAY_INNER_CT_LEN
      modifies this
      ensures r == OpenAt(aead, key, old(counter), ct)
      ensures r == Err(TagMismatch) <==> aead.open(key, NonceFor(old(counter)), ct).None?
      ensures r.Ok? ==> |r.value| == RELAY_INNER_PLAINTEXT_LEN
      ensures counter == Advanced(old(counter), r)
    {
      r := OpenBuffer(ct);
    }
  }

  // ---------------------------------------------------------------- a link against any network

  /**
   One direction under one key: the sealing and the opening counter, the nonces and plaintexts
   sealed so far (outer and inner calls alike), and the plaintexts accepted so far.
   */
  datatype Link = Link(
    key: Key, sendCounter: U64, recvCounter: U64,
    nonces: seq<Nonce>, sealed: seq<seq<Byte>>, accepted: seq<seq<Byte>>)

  /** The sender seals a plaintext, or the network hands any bytes at all to the receiver. */
  datatype LinkEvent = Seal(plain: seq<Byte>) | Deliver(ct: seq<Byte>)

  function NewLink(key: Key): Link {
    Link(key, 0, 0, [], [], [])
  }

  function LinkStep(aead: Aead, l: Link, e: LinkEvent): Link {
    match e
    case Seal(plain) =>
      var r := SealAt(aead, l.key, l.sendCounter, plain);
      if r.Err? then l
      else l.(sendCounter := l.sendCounter + 1,
              nonces := l.nonces + [NonceFor(l.sendCounter)],
              sealed := l.sealed + [plain])
    case Deliver(ct) =>
      var r := OpenAt(aead, l.key, l.recvCounter, ct);
      if r.Err? then l
      else l.(recvCounter := l.recvCounter + 1, accepted := l.accepted + [r.value])
  }

  function LinkRun(aead: Aead, l: Link, events: seq<LinkEvent>): Link
    decreases |events|
  {
    if events == [] then l else LinkRun(aead, LinkStep(aead, l, events[0]), events[1..])
  }

  /** `ct` is the ciphertext of the `i`-th sealed plaintext. */
  ghost predicate SealedAs(aead: Aead, l: Link, n: Nonce, ct: seq<Byte>, i: nat) {
    i < |l.sealed| && i <= U64_MAX && n == NonceFor(i) && ct == aead.seal(l.key, n, l.sealed[i])
  }

  /** Ideal authenticity: whatever opens under this key was sealed under it with that nonce. */
  ghost predicate Unforged(aead: Aead, l: Link, ct: seq<Byte>) {
    forall n :: aead.open(l.key, n, ct).Some? ==> exists i: nat :: SealedAs(aead, l, n, ct, i)
  }

  /** The network may drop, reorder, replay and inject; it cannot forge. */
  ghost predicate Plausible(aead: Aead, l: Link, events: seq<LinkEvent>)
    decreases |events|
  {
    events != [] ==>
      && (events[0].Deliver? ==> Unforged(aead, l, events[0].ct))
      && Plausible(aead, LinkStep(aead, l, events[0]), events[1..])
  }

  ghost predicate LinkInv(l: Link) {
    && l.sendCounter == |l.sealed| == |l.nonces|
    && l.recvCounter == |l.accepted|
    && l.accepted <= l.sealed
    && forall i :: 0 <= i < |l.nonces| ==> l.nonces[i] == NonceFor(i)
  }

  /** The next genuine ciphertext is accepted whatever came before it, and nothing else ever is. */
  lemma AcceptsExactlyTheNext(aead: Aead, l: Link, ct: seq<Byte>)
    requires aead.Ideal() && LinkInv(l) && Unforged(aead, l, ct)
    ensures OpenAt(aead, l.key, l.recvCounter, ct).Ok? <==>
            && l.recvCounter < |l.sealed|
            && ct == aead.seal(l.key, NonceFor(l.recvCounter), l.sealed[l.recvCounter])
    ensures OpenAt(aead, l.key, l.recvCounter, ct).Ok? ==>
              OpenAt(aead, l.key, l.recvCounter, ct).value == l.sealed[l.recvCounter]
  {
    var n := NonceFor(l.recvCounter);
    if aead.open(l.key, n, ct).Some? {
      var i: nat :| SealedAs(aead, l, n, ct, i);
      NonceInjective(i, l.recvCounter);
    }
  }

  lemma LinkStepKeepsInv(aead: Aead, l: Link, e: LinkEvent)
    requires aead.Ideal() && LinkInv(l)
    requires e.Deliver? ==> Unforged(aead, l, e.ct)
    ensures LinkInv(LinkStep(aead, l, e))
  {
    if e.Deliver? {
      AcceptsExactlyTheNext(aead, l, e.ct);
    }
  }

  /**
   Against any such network the accepted plaintexts are a prefix of the sealed ones, the counters
   count them, and no two seal calls, outer or inner, share a nonce.
   */
  lemma {:induction false} AcceptedIsPrefixOfSealed(aead: Aead, l: Link, events: seq<LinkEvent>)
    requires aead.Ideal() && LinkInv(l) && Plausible(aead, l, events)
    ensures var end := LinkRun(aead, l, events);
            && LinkInv(end)
            && l.sealed <= end.sealed && l.accepted <= end.accepted
            && forall i, j :: 0 <= i < j < |end.nonces| ==> end.nonces[i] != end.nonces[j]
    decreases |events|
  {
    if events == [] {
      forall i, j | 0 <= i < j < |l.nonces| ensures l.nonces[i] != l.nonces[j] {
        if l.nonces[i] == l.nonces[j] { NonceInjective(i, j); }
      }
    } else {
      LinkStepKeepsInv(aead, l, events[0]);
      AcceptedIsPrefixOfSealed(aead, LinkStep(aead, l, events[0]), events[1..]);
    }
  }

  /** Once the counter is exhausted no later seal ever succeeds, whatever else happens. */
  lemma {:induction false} ExhaustedForever(aead: Aead, l: Link, events: seq<LinkEvent>, plain: seq<Byte>)
    requires l.sendCounter == U64_MAX
    ensures var end := LinkRun(aead, l, events);
            && SealAt(aead, end.key, end.sendCounter, plain) == Err(NonceExhausted)
            && end.sealed == l.sealed && end.nonces == l.nonces
    decreases |events|
  {
    if events != [] {
      ExhaustedForever(aead, LinkStep(aead, l, events[0]), events[1..], plain);
    }
  }

  // ---------------------------------------------------------------- the assumption is consistent

  function ToySeal(k: Key, n: Nonce, p: seq<Byte>): seq<Byte> {
    p + n + U32Bytes(k.id)
  }

  function ToyOpen(k: Key, n: Nonce, c: seq<Byte>): Option<seq<Byte>> {
    if |c| >= TAG_LEN && c[|c| - TAG_LEN..] == n + U32Bytes(k.id) then Some(c[..|c| - TAG_LEN]) else None
  }

  /** A cipher on real byte strings that is ideal, and that no two keys or nonces share a ciphertext of. */
  lemma ToyAeadIsIdeal()
    ensures Aead(ToySeal, ToyOpen).Ideal()
    ensures forall k, n, p, k', n', p' ::
              ToySeal(k, n, p) == ToySeal(k', n', p') ==> k == k' && n == n' && p == p'
  {
    forall k, n, p ensures ToyOpen(k, n, ToySeal(k, n, p)) == Some(p) {
      var c := ToySeal(k, n, p);
      assert c[|c| - TAG_LEN..] == n + U32Bytes(k.id);
      assert c[..|c| - TAG_LEN] == p;
    }
    forall k, n, c | ToyOpen(k, n, c).Some? ensures c == ToySeal(k, n, ToyOpen(k, n, c).value) {
      assert c == c[..|c| - TAG_LEN] + c[|c| - TAG_LEN..];
    }
    forall k, n, p, k', n', p' | ToySeal(k, n, p) == ToySeal(k', n', p')
      ensures k == k' && n == n' && p == p'
    {
      var c := ToySeal(k, n, p);
      var tag := c[|c| - TAG_LEN..];
      assert tag[..12] == n && tag[..12] == n';
      assert tag[12..] == U32Bytes(k.id) && tag[12..] == U32Bytes(k'.id);
      U32RoundTrip(k.id);
      U32RoundTrip(k'.id);
      assert c[..|c| - TAG_LEN] == p && c[..|c| - TAG_LEN] == p';
    }
  }
}
