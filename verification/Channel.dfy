/**
 The encrypted channel between two peers (`p2p/src/channel.rs`) over an ideal AEAD: a ciphertext
 is the key, nonce and plaintext it was sealed with, and each seal or open call takes the next
 nonce first.  Nonces are those of section 2.8 of RFC 8439: twelve bytes, never repeated under
 one key.
 */
module Channel {
  import opened Wrappers

  newtype Byte = x: int | 0 <= x < 256

  type Bytes = seq<Byte>

  /** The largest unsigned 64-bit integer. */
  const MAX_U64: nat := 0xFFFF_FFFF_FFFF_FFFF

  datatype ChannelError = SealFailed | OpenFailed | InvalidKey

  type Result<+T> = Wrappers.Result<T, ChannelError>

  datatype Ciphertext = Sealed(key: Bytes, nonce: Bytes, plaintext: Bytes) | Garbage(bytes: Bytes)

  // ---------------------------------------------------------------------------
  // Nonce bytes
  // ---------------------------------------------------------------------------

  function LittleEndian(c: nat, n: nat): (b: Bytes)
    ensures |b| == n
  {
    if n == 0 then [] else [(c % 256) as Byte] + LittleEndian(c / 256, n - 1)
  }

  function FromLittleEndian(b: Bytes): nat {
    if b == [] then 0 else b[0] as nat + 256 * FromLittleEndian(b[1..])
  }

  function Pow256(n: nat): nat {
    if n == 0 then 1 else 256 * Pow256(n - 1)
  }

  /** Eight bytes hold exactly the 64-bit counters. */
  lemma {:induction false} LittleEndianRoundTrip(c: nat, n: nat)
    requires c < Pow256(n)
    ensures FromLittleEndian(LittleEndian(c, n)) == c
  {
    if n != 0 {
      LittleEndianRoundTrip(c / 256, n - 1);
      assert LittleEndian(c, n)[1..] == LittleEndian(c / 256, n - 1);
    }
  }

  function NonceBytes(prefix: Bytes, counter: nat): Bytes {
    prefix + LittleEndian(counter, 8)
  }

  lemma EightBytes()
    ensures Pow256(8) == MAX_U64 + 1
  {
    assert Pow256(4) == 0x1_0000_0000;
    assert Pow256(8) == 256 * 256 * 256 * 256 * Pow256(4);
  }

  /** The prefix fills the first four bytes and the counter, least significant byte first, the other eight. */
  lemma NonceLayout(p: Bytes, c: nat)
    requires |p| == 4 && c <= MAX_U64
    ensures |NonceBytes(p, c)| == 12
    ensures NonceBytes(p, c)[..4] == p
    ensures FromLittleEndian(NonceBytes(p, c)[4..]) == c
  {
    EightBytes();
    LittleEndianRoundTrip(c, 8);
    assert NonceBytes(p, c)[4..] == LittleEndian(c, 8);
  }

  /** Neither counter nor prefix is lost in the twelve bytes. */
  lemma NonceIsInjective(p: Bytes, c: nat, q: Bytes, d: nat)
    requires |p| == |q| == 4 && c <= MAX_U64 && d <= MAX_U64
    ensures |NonceBytes(p, c)| == |NonceBytes(q, d)| == 12
    ensures NonceBytes(p, c) == NonceBytes(q, d) <==> p == q && c == d
  {
    NonceLayout(p, c);
    NonceLayout(q, d);
  }

  /** The nonce for a counter, refused once the counter can no longer be advanced. */
  function NonceAt(prefix: Bytes, counter: nat): Option<Bytes> {
    if counter < MAX_U64 then Some(NonceBytes(prefix, counter)) else None
  }

  function Next(counter: nat): nat {
    if counter < MAX_U64 then counter + 1 else counter
  }

  class CounterNonce {
    const prefix: Bytes
    var counter: nat

    ghost predicate Valid()
      reads this
    {
      |prefix| == 4 && counter <= MAX_U64
    }

    constructor (prefix: Bytes)
      requires |prefix| == 4
      ensures Valid() && this.prefix == prefix && counter == 0
    {
      this.prefix := prefix;
      counter := 0;
    }

    method Advance() returns (r: Option<Bytes>)
      requires Valid()
      modifies this
      ensures Valid()
      ensures r == NonceAt(prefix, old(counter)) && counter == Next(old(counter))
    {
      var c := counter;
      if counter == MAX_U64 {
        return None;
      }
      counter := counter + 1;
      var nonceBytes := new Byte[12];
      forall i | 0 <= i < 4 {
        nonceBytes[i] := prefix[i];
      }
      var counterBytes := LittleEndian(c, 8);
      forall i | 0 <= i < 8 {
        nonceBytes[4 + i] := counterBytes[i];
      }
      assert nonceBytes[..] == prefix + counterBytes;
      r := Some(nonceBytes[..]);
    }
  }

  // ---------------------------------------------------------------------------
  // One end of the channel
  // ---------------------------------------------------------------------------

  datatype Side = Initiator | Responder

  function Other(side: Side): Side {
    if side.Initiator? then Responder else Initiator
  }

  function SealPrefix(side: Side): Bytes {
    if side.Initiator? then [0, 0, 0, 1] else [0, 0, 0, 2]
  }

  function SealWith(key: Bytes, nonce: Option<Bytes>, plaintext: Bytes): Result<Ciphertext> {
    if nonce.None? then Err(SealFailed) else Ok(Sealed(key, nonce.value, plaintext))
  }

  function OpenWith(key: Bytes, nonce: Option<Bytes>, c: Ciphertext): Result<Bytes> {
    if nonce.Some? && c.Sealed? && c.key == key && c.nonce == nonce.value then Ok(c.plaintext) else Err(OpenFailed)
  }

  class EncryptedChannel {
    const key: Bytes
    const side: Side
    const sealing: CounterNonce
    const opening: CounterNonce

    ghost predicate Valid()
      reads this, sealing, opening
    {
      && sealing != opening && sealing.Valid() && opening.Valid()
      && sealing.prefix == SealPrefix(side) && opening.prefix == SealPrefix(Other(side))
    }

    constructor (key: Bytes, side: Side)
      ensures Valid() && this.key == key && this.side == side
      ensures fresh(sealing) && fresh(opening) && sealing.counter == opening.counter == 0
    {
      this.key := key;
      this.side := side;
      sealing := new CounterNonce(SealPrefix(side));
      opening := new CounterNonce(SealPrefix(Other(side)));
    }

    /** The key material must be 32 bytes. */
    static method New(sharedSecret: Bytes, isInitiator: bool) returns (r: Result<EncryptedChannel>)
      ensures r.Ok? <==> |sharedSecret| == 32
      ensures r.Err? ==> r.error == InvalidKey
      ensures r.Ok? ==> r.value.Valid() && r.value.key == sharedSecret && (r.value.side.Initiator? <==> isInitiator)
      ensures r.Ok? ==> r.value.sealing.counter == r.value.opening.counter == 0
      ensures r.Ok? ==> r.value.sealing.prefix == [0, 0, 0, if isInitiator then 1 else 2]
      ensures r.Ok? ==> r.value.opening.prefix == [0, 0, 0, if isInitiator then 2 else 1]
    {
      if |sharedSecret| != 32 {
        return Err(InvalidKey);
      }
      var channel := new EncryptedChannel(sharedSecret, if isInitiator then Initiator else Responder);
      r := Ok(channel);
    }

    method Seal(plaintext: Bytes) returns (r: Result<Ciphertext>)
      requires Valid()
      modifies sealing
      ensures Valid()
      ensures r == SealWith(key, NonceAt(SealPrefix(side), old(sealing.counter)), plaintext)
      ensures sealing.counter == Next(old(sealing.counter))
    {
      var nonce := sealing.Advance();
      if nonce.None? {
        return Err(SealFailed);
      }
      r := Ok(Sealed(key, nonce.value, plaintext));
    }

    /** A failed open has used up its nonce all the same. */
    method Open(c: Ciphertext) returns (r: Result<Bytes>)
      requires Valid()
      modifies opening
      ensures Valid()
      ensures r == OpenWith(key, NonceAt(SealPrefix(Other(side)), old(opening.counter)), c)
      ensures opening.counter == Next(old(opening.counter))
    {
      var nonce := opening.Advance();
      if nonce.None? {
        return Err(OpenFailed);
      }
      if c.Sealed? && c.key == key && c.nonce == nonce.value {
        return Ok(c.plaintext);
      }
      r := Err(OpenFailed);
    }
  }

  // ---------------------------------------------------------------------------
  // Two ends sharing a key
  // ---------------------------------------------------------------------------

  /** An end's counters, what it sealed, and what its opens returned, in order. */
  datatype End = End(sealCounter: nat, openCounter: nat, sealed: seq<Ciphertext>, opens: seq<Result<Bytes>>)

  /** `used` lists every nonce either end has sealed with, in the order of use. */
  datatype World = World(key: Bytes, initiator: End, responder: End, used: seq<Bytes>)

  datatype Step =
    | Seal(side: Side, plaintext: Bytes)
    | Open(side: Side, ciphertext: Ciphertext)

  function EndOf(w: World, side: Side): End {
    if side.Initiator? then w.initiator else w.responder
  }

  function WithEnd(w: World, side: Side, e: End): World {
    if side.Initiator? then w.(initiator := e) else w.(responder := e)
  }

  const FRESH_END := End(0, 0, [], [])

  function Init(key: Bytes): World {
    World(key, FRESH_END, FRESH_END, [])
  }

  /** The ideal AEAD: nothing is sealed under the shared key but by the two ends. */
  predicate Enabled(w: World, step: Step) {
    step.Open? && step.ciphertext.Sealed? && step.ciphertext.key == w.key ==>
      step.ciphertext in w.initiator.sealed || step.ciphertext in w.responder.sealed
  }

  function Do(w: World, step: Step): World {
    var e := EndOf(w, step.side);
    match step
    case Seal(side, plaintext) =>
      var nonce := NonceAt(SealPrefix(side), e.sealCounter);
      var r := SealWith(w.key, nonce, plaintext);
      if r.Err? then w else
        var w' := WithEnd(w, side, e.(sealCounter := Next(e.sealCounter), sealed := e.sealed + [r.value]));
        w'.(used := w.used + [nonce.value])
    case Open(side, c) =>
      var r := OpenWith(w.key, NonceAt(SealPrefix(Other(side)), e.openCounter), c);
      WithEnd(w, side, e.(openCounter := Next(e.openCounter), opens := e.opens + [r]))
  }

  ghost predicate Legal(w: World, steps: seq<Step>)
    decreases |steps|
  {
    steps != [] ==> Enabled(w, steps[0]) && Legal(Do(w, steps[0]), steps[1..])
  }

  ghost function Exec(w: World, steps: seq<Step>): World
    requires Legal(w, steps)
    decreases |steps|
  {
    if steps == [] then w else Exec(Do(w, steps[0]), steps[1..])
  }

  ghost predicate Reachable(w: World) {
    exists key, steps :: Legal(Init(key), steps) && Exec(Init(key), steps) == w
  }

  /** An end's k-th ciphertext carries its k-th nonce; its open counter counts its opens until it sticks. */
  ghost predicate EndOk(key: Bytes, side: Side, e: End) {
    && e.sealCounter == |e.sealed| <= MAX_U64
    && e.openCounter == (if |e.opens| < MAX_U64 then |e.opens| else MAX_U64)
    && forall k :: 0 <= k < |e.sealed| ==>
         e.sealed[k].Sealed? && e.sealed[k].key == key && e.sealed[k].nonce == NonceBytes(SealPrefix(side), k)
  }

  ghost predicate UsedBy(w: World, nonce: Bytes) {
    exists side, k :: 0 <= k < |EndOf(w, side).sealed| && nonce == NonceBytes(SealPrefix(side), k)
  }

  ghost predicate NoncesOk(w: World) {
    && (forall i :: 0 <= i < |w.used| ==> UsedBy(w, w.used[i]))
    && (forall i, j :: 0 <= i < j < |w.used| ==> w.used[i] != w.used[j])
    && |w.used| == |w.initiator.sealed| + |w.responder.sealed|
  }

  ghost predicate EndsOk(w: World) {
    EndOk(w.key, Initiator, w.initiator) && EndOk(w.key, Responder, w.responder)
  }

  ghost predicate Inv(w: World) {
    EndsOk(w) && NoncesOk(w)
  }

  lemma UsedStays(w: World, step: Step, nonce: Bytes)
    requires UsedBy(w, nonce)
    ensures UsedBy(Do(w, step), nonce)
  {
    var side, k :| 0 <= k < |EndOf(w, side).sealed| && nonce == NonceBytes(SealPrefix(side), k);
    assert 0 <= k < |EndOf(Do(w, step), side).sealed|;
  }

  /** The nonce an end is about to use has not been used. */
  lemma NextNonceIsNew(w: World, side: Side, i: nat)
    requires Inv(w) && EndOf(w, side).sealCounter < MAX_U64 && i < |w.used|
    ensures w.used[i] != NonceBytes(SealPrefix(side), EndOf(w, side).sealCounter)
  {
    assert UsedBy(w, w.used[i]);
    var s, k :| 0 <= k < |EndOf(w, s).sealed| && w.used[i] == NonceBytes(SealPrefix(s), k);
    NonceIsInjective(SealPrefix(s), k, SealPrefix(side), EndOf(w, side).sealCounter);
    if s != side {
      assert SealPrefix(s)[3] != SealPrefix(side)[3];
    }
  }

  lemma StepKeepsEnds(w: World, step: Step)
    requires EndsOk(w)
    ensures EndsOk(Do(w, step))
  {
    hide NonceBytes, SealPrefix;
  }

  lemma SealKeepsNonces(w: World, side: Side, plaintext: Bytes)
    requires Inv(w) && EndOf(w, side).sealCounter < MAX_U64
    ensures NoncesOk(Do(w, Seal(side, plaintext)))
  {
    var step := Seal(side, plaintext);
    var w', k := Do(w, step), EndOf(w, side).sealCounter;
    var nonce := NonceBytes(SealPrefix(side), k);
    assert w'.used == w.used + [nonce];
    assert UsedBy(w', nonce) by {
      assert 0 <= k < |EndOf(w', side).sealed|;
    }
    forall i | 0 <= i < |w.used| ensures UsedBy(w', w.used[i]) && w.used[i] != nonce {
      UsedStays(w, step, w.used[i]);
      NextNonceIsNew(w, side, i);
    }
  }

  lemma StepKeepsInv(w: World, step: Step)
    requires Inv(w)
    ensures Inv(Do(w, step))
  {
    StepKeepsEnds(w, step);
    if step.Seal? && EndOf(w, step.side).sealCounter < MAX_U64 {
      SealKeepsNonces(w, step.side, step.plaintext);
    } else {
      forall i | 0 <= i < |w.used| ensures UsedBy(Do(w, step), w.used[i]) {
        UsedStays(w, step, w.used[i]);
      }
    }
  }

  lemma {:induction false} RunKeepsInv(w: World, steps: seq<Step>)
    requires Inv(w) && Legal(w, steps)
    ensures Inv(Exec(w, steps)) && Exec(w, steps).key == w.key
    decreases |steps|
  {
    if steps != [] {
      StepKeepsInv(w, steps[0]);
      RunKeepsInv(Do(w, steps[0]), steps[1..]);
    }
  }

  lemma ReachableInv(w: World)
    requires Reachable(w)
    ensures Inv(w)
  {
    var key, steps :| Legal(Init(key), steps) && Exec(Init(key), steps) == w;
    RunKeepsInv(Init(key), steps);
  }

  /** Over any interleaving of both ends, no two seals use the same nonce, and each nonce is twelve bytes. */
  lemma NoncesNeverRepeat(w: World, i: nat, j: nat)
    requires Reachable(w) && i < j < |w.used|
    ensures w.used[i] != w.used[j]
    ensures |w.used[i]| == 12
    ensures |w.used| == |w.initiator.sealed| + |w.responder.sealed|
  {
    ReachableInv(w);
    assert UsedBy(w, w.used[i]);
    var s, k :| 0 <= k < |EndOf(w, s).sealed| && w.used[i] == NonceBytes(SealPrefix(s), k);
    NonceIsInjective(SealPrefix(s), k, SealPrefix(s), k);
  }

  /** An end seals exactly 2^64 - 1 times before it is refused, and is refused ever after. */
  lemma SealsUntilExhausted(w: World, side: Side, plaintext: Bytes)
    requires Reachable(w)
    ensures |EndOf(w, side).sealed| <= MAX_U64
    ensures |EndOf(w, side).sealed| < MAX_U64 ==>
      EndOf(Do(w, Seal(side, plaintext)), side).sealed ==
        EndOf(w, side).sealed + [Sealed(w.key, NonceBytes(SealPrefix(side), |EndOf(w, side).sealed|), plaintext)]
    ensures |EndOf(w, side).sealed| == MAX_U64 ==> Do(w, Seal(side, plaintext)) == w
  {
    ReachableInv(w);
  }

  /**
   Lockstep: an end's k-th open succeeds exactly when it is given the k-th message its peer
   sealed, and then it returns that message's plaintext.  A lost, repeated, reordered, reflected
   or corrupted message fails, and still uses up its turn.
   */
  lemma OpensInLockstep(w: World, side: Side, c: Ciphertext)
    requires Reachable(w) && Enabled(w, Open(side, c))
    ensures var k, theirs := |EndOf(w, side).opens|, EndOf(w, Other(side)).sealed;
      var r := EndOf(Do(w, Open(side, c)), side).opens;
      && |r| == k + 1
      && (r[k].Ok? <==> k < MAX_U64 && k < |theirs| && c == theirs[k])
      && (r[k].Ok? ==> r[k].value == theirs[k].plaintext)
  {
    ReachableInv(w);
    var e, theirs := EndOf(w, side), EndOf(w, Other(side)).sealed;
    var k := |e.opens|;
    assert EndOk(w.key, side, e) && EndOk(w.key, Other(side), EndOf(w, Other(side)));
    if k < MAX_U64 && c.Sealed? && c.key == w.key {
      var s, j := SealedBy(w, c);
      NonceIsInjective(SealPrefix(s), j, SealPrefix(Other(side)), k);
      if s != Other(side) {
        assert SealPrefix(s)[3] != SealPrefix(Other(side))[3];
      }
    }
    if k < MAX_U64 && k < |theirs| && c == theirs[k] {
      assert c.nonce == NonceBytes(SealPrefix(Other(side)), k);
    }
  }

  lemma SealedBy(w: World, c: Ciphertext) returns (side: Side, k: nat)
    requires Inv(w) && (c in w.initiator.sealed || c in w.responder.sealed)
    ensures k < |EndOf(w, side).sealed| && EndOf(w, side).sealed[k] == c
    ensures c.Sealed? && c.key == w.key && c.nonce == NonceBytes(SealPrefix(side), k)
  {
    side := if c in w.initiator.sealed then Initiator else Responder;
    k :| k < |EndOf(w, side).sealed| && EndOf(w, side).sealed[k] == c;
    assert EndOk(w.key, side, EndOf(w, side));
  }

  /** Every open of the run is given the message whose turn it is: lossless, in-order delivery. */
  ghost predicate InOrder(w: World, steps: seq<Step>)
    decreases |steps|
  {
    steps != [] ==>
      && (steps[0].Open? ==> InTurn(w, steps[0].side, steps[0].ciphertext))
      && InOrder(Do(w, steps[0]), steps[1..])
  }

  ghost predicate InTurn(w: World, side: Side, c: Ciphertext) {
    var k, theirs := |EndOf(w, side).opens|, EndOf(w, Other(side)).sealed;
    k < |theirs| && c == theirs[k]
  }

  /** All opens of an end so far returned the plaintexts its peer sealed, in order. */
  ghost predicate KeptUp(w: World, side: Side) {
    var opens, theirs := EndOf(w, side).opens, EndOf(w, Other(side)).sealed;
    && |opens| <= |theirs|
    && forall i :: 0 <= i < |opens| ==> theirs[i].Sealed? && opens[i] == Ok(theirs[i].plaintext)
  }

  lemma StepKeepsUp(w: World, step: Step, side: Side)
    requires Inv(w) && KeptUp(w, side)
    requires step.Open? ==> InTurn(w, step.side, step.ciphertext)
    ensures KeptUp(Do(w, step), side)
  {
    if step.Open? && step.side == side {
      assert EndOk(w.key, Other(side), EndOf(w, Other(side))) && EndOk(w.key, side, EndOf(w, side));
      assert EndOf(Do(w, step), side).opens == EndOf(w, side).opens + [Ok(step.ciphertext.plaintext)];
    }
  }

  lemma {:induction false} InOrderRunKeepsUp(w: World, steps: seq<Step>, side: Side)
    requires Inv(w) && KeptUp(w, side) && Legal(w, steps) && InOrder(w, steps)
    ensures KeptUp(Exec(w, steps), side)
    decreases |steps|
  {
    if steps != [] {
      StepKeepsInv(w, steps[0]);
      StepKeepsUp(w, steps[0], side);
      InOrderRunKeepsUp(Do(w, steps[0]), steps[1..], side);
    }
  }

  /**
   Over any interleaving of seals and opens at both ends in which delivery is in order and
   lossless, the i-th open of each end returns the i-th plaintext its peer sealed.
   */
  lemma InOrderDeliveryIsLossless(key: Bytes, steps: seq<Step>, side: Side, i: nat)
    requires Legal(Init(key), steps) && InOrder(Init(key), steps)
    requires i < |EndOf(Exec(Init(key), steps), side).opens|
    ensures i < |EndOf(Exec(Init(key), steps), Other(side)).sealed|
    ensures var theirs := EndOf(Exec(Init(key), steps), Other(side)).sealed;
      theirs[i].Sealed? && EndOf(Exec(Init(key), steps), side).opens[i] == Ok(theirs[i].plaintext)
  {
    InOrderRunKeepsUp(Init(key), steps, side);
  }
}
