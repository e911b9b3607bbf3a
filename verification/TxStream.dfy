/**
 The transaction feed: several sources report the same transactions, and a filter with a
 bounded memory lets each through once. Time stamps serve as the values of the buffer
 and may well collide.
 */
module TxStream {
  import opened Bytes
  import opened CircularBuffer

  const GEYSER_TX_FEED_BUFFER_CAPACITY: nat := 65536

  type Signature = seq<byte>

  /** A transaction may come without a valid signature; a status update always has one. */
  datatype Event =
    | Transaction(found: Option<Signature>, slot: nat)
    | TxStatusUpdate(signature: Signature, slot: nat)
    | Account(data: seq<byte>)

  function SignatureOf(e: Event): Option<Signature> {
    match e
    case Transaction(found, _) => found
    case TxStatusUpdate(signature, _) => Some(signature)
    case Account(_) => None
  }

  /** The last `n` elements, or all when there are fewer. */
  function Recent<T>(s: seq<T>, n: nat): seq<T> {
    if |s| <= n then s else s[|s| - n..]
  }

  /** What the filter is to do with an event when these signatures have been let through already. */
  predicate LetsThrough(emitted: seq<Signature>, e: Event, capacity: nat) {
    match SignatureOf(e)
    case Some(signature) => signature !in Recent(emitted, capacity)
    case None => e.Account?
  }

  /** The signatures of the first `n` events that are let through, in order. */
  function Emitted(events: seq<Event>, n: nat, capacity: nat): seq<Signature>
    requires n <= |events|
  {
    if n == 0 then []
    else
      var before := Emitted(events, n - 1, capacity);
      if SignatureOf(events[n - 1]).Some? && LetsThrough(before, events[n - 1], capacity)
      then before + [SignatureOf(events[n - 1]).value]
      else before
  }

  /** The events let through. */
  function Output(events: seq<Event>, n: nat, capacity: nat): seq<Event>
    requires n <= |events|
  {
    if n == 0 then []
    else
      Output(events, n - 1, capacity)
      + if LetsThrough(Emitted(events, n - 1, capacity), events[n - 1], capacity) then [events[n - 1]] else []
  }

  class Filter {
    const txBuffer: CircularBufferWithLookupByValue<Signature, int>
    ghost var emitted: seq<Signature>

    ghost predicate Valid()
      reads this, txBuffer
    {
      && txBuffer.capacity > 0
      && InStep(txBuffer.Value())
      && txBuffer.keys == Recent(emitted, txBuffer.capacity)
    }

    constructor (capacity: nat)
      requires capacity > 0
      ensures Valid() && emitted == [] && txBuffer.capacity == capacity && fresh(txBuffer)
    {
      txBuffer := new CircularBufferWithLookupByValue<Signature, int>(capacity);
      emitted := [];
    }

    /** One event, at time `now`. */
    method Accept(e: Event, now: int) returns (pass: bool)
      requires Valid()
      modifies this, txBuffer
      ensures Valid()
      ensures pass == LetsThrough(old(emitted), e, txBuffer.capacity)
      ensures emitted == if pass && SignatureOf(e).Some? then old(emitted) + [SignatureOf(e).value] else old(emitted)
    {
      match e {
        case Transaction(None, _) =>
          return false;
        case Transaction(Some(signature), _) =>
          pass := AcceptSignature(signature, now);
        case TxStatusUpdate(signature, _) =>
          pass := AcceptSignature(signature, now);
        case Account(_) =>
          return true;
      }
    }

    method AcceptSignature(signature: Signature, now: int) returns (pass: bool)
      requires Valid()
      modifies this, txBuffer
      ensures Valid()
      ensures pass <==> signature !in Recent(old(emitted), txBuffer.capacity)
      ensures emitted == if pass then old(emitted) + [signature] else old(emitted)
    {
      ghost var s := txBuffer.Value();
      if txBuffer.ContainsKey(signature) {
        return false;
      }
      RoomKeepsStep(s);
      InsertKeepsStep(s, signature, now);
      RecentMoves(emitted, signature, txBuffer.capacity);
      assert MadeRoom(s).keys == if |s.keys| == s.capacity then s.keys[1..] else s.keys;
      txBuffer.Insert(signature, now);
      emitted := emitted + [signature];
      return true;
    }
  }

  lemma RecentMoves<T>(s: seq<T>, x: T, n: nat)
    requires n > 0
    ensures Recent(s + [x], n) == (if |Recent(s, n)| == n then Recent(s, n)[1..] else Recent(s, n)) + [x]
  {
  }

  /** The filter on a whole stream: which events pass depends on the events alone, not on the clock. */
  method BlockchainStream(events: seq<Event>, clock: nat -> int) returns (output: seq<Event>)
    ensures output == Output(events, |events|, 65536)
  {
    var filter := new Filter(GEYSER_TX_FEED_BUFFER_CAPACITY);
    output := [];
    for i := 0 to |events|
      invariant fresh(filter) && fresh(filter.txBuffer) && filter.Valid()
      invariant filter.txBuffer.capacity == GEYSER_TX_FEED_BUFFER_CAPACITY
      invariant filter.emitted == Emitted(events, i, GEYSER_TX_FEED_BUFFER_CAPACITY)
      invariant output == Output(events, i, GEYSER_TX_FEED_BUFFER_CAPACITY)
    {
      var pass := filter.Accept(events[i], clock(i));
      if pass {
        output := output + [events[i]];
      }
    }
  }

  /** The signature is one of the last `n`. */
  predicate IsAmongLast(signatures: seq<Signature>, n: nat, signature: Signature) {
    exists i :: 0 <= i < |signatures| && |signatures| - n <= i && signatures[i] == signature
  }

  /**
   One more event: an account comes through, a transaction without a signature does not, and
   anything else does unless the last `capacity` signatures of the output have its own.
   */
  lemma NextOutput(events: seq<Event>, n: nat, capacity: nat)
    requires n < |events|
    ensures var before, after := Output(events, n, capacity), Output(events, n + 1, capacity);
      var signatures := SignaturesIn(before, |before|);
      match events[n]
      case Account(_) => after == before + [events[n]]
      case Transaction(None, _) => after == before
      case Transaction(Some(signature), _) =>
        after == if IsAmongLast(signatures, capacity, signature) then before else before + [events[n]]
      case TxStatusUpdate(signature, _) =>
        after == if IsAmongLast(signatures, capacity, signature) then before else before + [events[n]]
  {
    OutputSignatures(events, n, capacity);
    match SignatureOf(events[n])
    case Some(signature) => AmongLastIsRecent(Emitted(events, n, capacity), capacity, signature);
    case None =>
  }

  lemma AmongLastIsRecent(signatures: seq<Signature>, n: nat, signature: Signature)
    ensures IsAmongLast(signatures, n, signature) <==> signature in Recent(signatures, n)
  {
    if IsAmongLast(signatures, n, signature) {
      var i :| 0 <= i < |signatures| && |signatures| - n <= i && signatures[i] == signature;
      LateIsRecent(signatures, n, i);
    }
    if signature in Recent(signatures, n) && n < |signatures| {
      var j :| 0 <= j < n && Recent(signatures, n)[j] == signature;
      assert signatures[|signatures| - n + j] == signature;
    }
  }

  /** No signature comes through a second time within `capacity` others. */
  lemma {:induction false} RepeatsAreFarApart(events: seq<Event>, n: nat, capacity: nat, i: nat, j: nat)
    requires n <= |events| && i < j < |Emitted(events, n, capacity)|
    requires Emitted(events, n, capacity)[i] == Emitted(events, n, capacity)[j]
    ensures j - i > capacity
  {
    var before, now := Emitted(events, n - 1, capacity), Emitted(events, n, capacity);
    if j < |before| {
      RepeatsAreFarApart(events, n - 1, capacity, i, j);
    } else {
      assert now[j] !in Recent(before, capacity) && before[i] == now[i];
      LateIsRecent(before, capacity, i);
    }
  }

  lemma LateIsRecent<T>(s: seq<T>, n: nat, i: nat)
    requires i < |s|
    ensures |s| - i <= n ==> s[i] in Recent(s, n)
  {
    if |s| - i <= n < |s| {
      assert Recent(s, n)[i - (|s| - n)] == s[i];
    }
  }

  /** And no signature is lost: each one that came in has come through. */
  lemma {:induction false} NoSignatureIsLost(events: seq<Event>, n: nat, capacity: nat, k: nat)
    requires k < n <= |events| && SignatureOf(events[k]).Some?
    ensures SignatureOf(events[k]).value in Emitted(events, n, capacity)
  {
    if k < n - 1 {
      NoSignatureIsLost(events, n - 1, capacity, k);
    } else {
      RecentIsPart(Emitted(events, n - 1, capacity), capacity, SignatureOf(events[k]).value);
    }
  }

  lemma RecentIsPart<T>(s: seq<T>, n: nat, x: T)
    ensures x in Recent(s, n) ==> x in s
  {
  }

  /** The signatures of the output are the ones let through. */
  lemma {:induction false} OutputSignatures(events: seq<Event>, n: nat, capacity: nat)
    requires n <= |events|
    ensures SignaturesIn(Output(events, n, capacity), |Output(events, n, capacity)|) == Emitted(events, n, capacity)
  {
    if n == 0 {
    } else {
      OutputSignatures(events, n - 1, capacity);
      var before, e := Output(events, n - 1, capacity), events[n - 1];
      SignaturesAppend(before, e);
      assert before + [] == before;
    }
  }

  lemma SignaturesAppend(events: seq<Event>, e: Event)
    ensures SignaturesIn(events + [e], |events + [e]|) ==
      SignaturesIn(events, |events|) + if SignatureOf(e).Some? then [SignatureOf(e).value] else []
  {
    SignaturesPrefix(events, events + [e], |events|);
  }

  function SignaturesIn(events: seq<Event>, n: nat): seq<Signature>
    requires n <= |events|
  {
    if n == 0 then []
    else
      SignaturesIn(events, n - 1)
      + if SignatureOf(events[n - 1]).Some? then [SignatureOf(events[n - 1]).value] else []
  }

  lemma {:induction false} SignaturesPrefix(a: seq<Event>, b: seq<Event>, n: nat)
    requires n <= |a| && a <= b
    ensures SignaturesIn(a, n) == SignaturesIn(b, n)
  {
    if n == 0 {
    } else {
      SignaturesPrefix(a, b, n - 1);
    }
  }
}
