/**
 Splitting a list of instructions into transactions of limited size. The size of a
 transaction is a parameter: a function of the instructions in it.
 */
module Batching {
  import opened Bytes

  const SIZE_LIMIT := 1644

  /** A transaction may be too large only when it has a single instruction. */
  predicate Allowed<I>(batch: seq<I>, size: seq<I> -> nat) {
    |batch| <= 1 || size(batch) <= SIZE_LIMIT
  }

  /** Where the batch that begins at `k` ends. */
  function CutAt<I>(s: seq<I>, size: seq<I> -> nat, k: nat): (e: nat)
    requires k <= |s|
    ensures k <= e <= |s| && (k < |s| ==> k < e)
  {
    if |s| - k <= 1 || size(s[k..]) <= SIZE_LIMIT then |s| else FirstOver(s, size, k, k + 2) - 1
  }

  /** The first end from `e` on that makes the batch too large, or one past the last. */
  function FirstOver<I>(s: seq<I>, size: seq<I> -> nat, k: nat, e: nat): (r: nat)
    requires k <= e <= |s| + 1
    ensures e <= r <= |s| + 1
    decreases |s| + 1 - e
  {
    if e == |s| + 1 || size(s[k..e]) > SIZE_LIMIT then e else FirstOver(s, size, k, e + 1)
  }

  lemma {:induction false} FirstOverIs<I>(s: seq<I>, size: seq<I> -> nat, k: nat, e: nat)
    requires k <= e <= |s| + 1
    ensures FirstOver(s, size, k, e) > e ==> size(s[k..FirstOver(s, size, k, e) - 1]) <= SIZE_LIMIT
    ensures FirstOver(s, size, k, e) <= |s| ==> size(s[k..FirstOver(s, size, k, e)]) > SIZE_LIMIT
    decreases |s| + 1 - e
  {
    if e == |s| + 1 || size(s[k..e]) > SIZE_LIMIT {
    } else {
      FirstOverIs(s, size, k, e + 1);
    }
  }

  /** The batches of what follows `k`. */
  function Batches<I>(s: seq<I>, size: seq<I> -> nat, k: nat): seq<seq<I>>
    requires k <= |s|
    decreases |s| - k
  {
    if k == |s| then [] else [s[k..CutAt(s, size, k)]] + Batches(s, size, CutAt(s, size, k))
  }

  function Flatten<I>(batches: seq<seq<I>>): seq<I> {
    if batches == [] then [] else batches[0] + Flatten(batches[1..])
  }

  /** A batch is allowed, and it could not have been longer. */
  lemma CutIsGreedy<I>(s: seq<I>, size: seq<I> -> nat, k: nat)
    requires k < |s|
    ensures Allowed(s[k..CutAt(s, size, k)], size)
    ensures CutAt(s, size, k) < |s| ==> size(s[k..CutAt(s, size, k) + 1]) > 1644
  {
    var e := CutAt(s, size, k);
    assert s[k..|s|] == s[k..];
    if k + 2 <= |s| {
      FirstOverIs(s, size, k, k + 2);
    }
    if e < |s| {
      assert e + 1 == FirstOver(s, size, k, k + 2);
    }
  }

  /** The batches are the instructions, in order; none is empty and all are allowed. */
  lemma {:induction false} BatchesCoverAll<I>(s: seq<I>, size: seq<I> -> nat, k: nat)
    requires k <= |s|
    ensures Flatten(Batches(s, size, k)) == s[k..]
    ensures forall b :: b in Batches(s, size, k) ==> b != [] && Allowed(b, size)
    decreases |s| - k
  {
    if k == |s| {
    } else {
      var e := CutAt(s, size, k);
      CutIsGreedy(s, size, k);
      BatchesCoverAll(s, size, e);
      assert s[k..] == s[k..e] + s[e..];
      assert Batches(s, size, k)[1..] == Batches(s, size, e);
    }
  }

  /** A part of a list of instructions never makes a larger transaction than the whole. */
  ghost predicate Monotone<I>(s: seq<I>, size: seq<I> -> nat) {
    forall a, b, c, d :: 0 <= a <= c <= d <= b <= |s| ==> size(s[c..d]) <= size(s[a..b])
  }

  /** The cut behind `k` goes at least as far as any allowed batch that starts no later. */
  lemma CutGoesAsFar<I>(s: seq<I>, size: seq<I> -> nat, k: nat, j: nat, next: nat)
    requires Monotone(s, size) && j <= k < |s| && j <= next <= |s| && Allowed(s[j..next], size)
    ensures CutAt(s, size, k) >= next
  {
    var e := CutAt(s, size, k);
    CutIsGreedy(s, size, k);
    if k < next {
      var m := if e < next then e + 1 else k;
      assert size(s[k..m]) <= size(s[j..next]);
    }
  }

  /** In-order splits into allowed batches that start no later than at `k` need at least as many. */
  lemma {:induction false} NoSplitIsShorter<I>(s: seq<I>, size: seq<I> -> nat, k: nat, j: nat, split: seq<seq<I>>)
    requires Monotone(s, size) && j <= k <= |s|
    requires Flatten(split) == s[j..] && forall b :: b in split ==> Allowed(b, size)
    ensures |Batches(s, size, k)| <= |split|
    decreases |split|
  {
    if k == |s| {
    } else {
      assert split != [];
      var b, e := split[0], CutAt(s, size, k);
      var next := j + |b|;
      assert Flatten(split) == b + Flatten(split[1..]);
      assert s[j..][..|b|] == s[j..next];
      assert s[j..][|b|..] == s[next..];
      CutIsGreedy(s, size, k);
      assert b in split && b == s[j..next];
      CutGoesAsFar(s, size, k, j, next);
      assert forall x :: x in split[1..] ==> x in split;
      NoSplitIsShorter(s, size, e, next, split[1..]);
    }
  }

  /** The batches are as few as possible. */
  lemma GreedyIsOptimal<I>(s: seq<I>, size: seq<I> -> nat, split: seq<seq<I>>)
    requires Monotone(s, size)
    requires Flatten(split) == s && forall b :: b in split ==> Allowed(b, size)
    ensures |Batches(s, size, 0)| <= |split|
  {
    assert s[0..] == s;
    NoSplitIsShorter(s, size, 0, 0, split);
  }

  /**
   `create_transaction` on the slice of the instructions that begins at `k`: how many of
   them go into the transaction. All do when there is at most one or they fit; otherwise as
   many as fit up to the first that does not, and at least one.
   */
  method CreateTransaction<I>(s: seq<I>, k: nat, size: seq<I> -> nat) returns (n: nat)
    requires k <= |s|
    ensures k + n == CutAt(s, size, k)
    ensures k + n == |s| <==> k + 1 >= |s| || size(s[k..]) <= 1644
    ensures k + n < |s| ==>
      n > 0 && size(s[k..k + n + 1]) > 1644 && forall e :: k + 2 <= e <= k + n ==> size(s[k..e]) <= 1644
  {
    var length := |s| - k;
    if length <= 1 || size(s[k..]) <= SIZE_LIMIT {
      return length;
    }
    assert s[k..|s|] == s[k..];
    var i := 2;
    while i < length + 1
      invariant 2 <= i <= length + 1
      invariant FirstOver(s, size, k, k + 2) == FirstOver(s, size, k, k + i)
      invariant i == length + 1 ==> size(s[k..|s|]) <= SIZE_LIMIT
      invariant forall e :: k + 2 <= e < k + i ==> size(s[k..e]) <= SIZE_LIMIT
    {
      if size(s[k..k + i]) > SIZE_LIMIT {
        return i - 1;
      }
      i := i + 1;
    }
    assert false; // the source marks this point as unreachable
  }

  lemma FirstBatch<I>(s: seq<I>, size: seq<I> -> nat, k: nat, n: nat)
    requires k < |s| && k + n == CutAt(s, size, k)
    ensures k < k + n <= |s| && Batches(s, size, k) == [s[k..k + n]] + Batches(s, size, k + n)
  {
  }

  /** With `sent` the batches of the first `k` instructions have gone out. */
  ghost predicate SentTo<I>(s: seq<I>, size: seq<I> -> nat, k: nat, sent: seq<seq<I>>) {
    var all := Batches(s, size, 0);
    k <= |s| && |sent| <= |all| && sent == all[..|sent|] && all[|sent|..] == Batches(s, size, k)
  }

  lemma NextBatch<I>(s: seq<I>, size: seq<I> -> nat, k: nat, n: nat, sent: seq<seq<I>>)
    requires SentTo(s, size, k, sent) && k < |s| && k + n == CutAt(s, size, k)
    ensures k < k + n <= |s| && SentTo(s, size, k + n, sent + [s[k..k + n]])
  {
    var all, sent' := Batches(s, size, 0), sent + [s[k..k + n]];
    FirstBatch(s, size, k, n);
    assert all[|sent|] == all[|sent|..][0] == s[k..k + n];
    assert all[|sent'|..] == all[|sent|..][1..] == Batches(s, size, k + n);
  }

  /** The first `n` batches are sent successfully. */
  ghost predicate AllSucceed(sends: nat -> bool, n: nat) {
    forall i :: 0 <= i < n ==> sends(i)
  }

  datatype SendError = NoSigners | SendFailed

  /**
   `sign_and_send_instructions_in_batches`. Whether sending batch number i succeeds is up
   to `sends`. The batches go out in order up to the first that fails.
   */
  method SendInBatches<I>(instructions: seq<I>, size: seq<I> -> nat, hasSigners: bool, sends: nat -> bool)
    returns (r: Result<nat, SendError>, sent: seq<seq<I>>)
    ensures sent <= Batches(instructions, size, 0)
    ensures forall i :: 0 <= i < |sent| ==> sends(i)
    ensures r == Err(NoSigners) <==> !hasSigners
    ensures !hasSigners ==> sent == []
    ensures r.Ok? ==> sent == Batches(instructions, size, 0) && r.value == |sent|
    ensures r == Err(SendFailed) ==> |sent| < |Batches(instructions, size, 0)| && !sends(|sent|)
  {
    if !hasSigners {
      return Err(NoSigners), [];
    }
    var processed;
    sent, processed := SendAll(instructions, size, sends);
    SentIs(instructions, size, processed, sent);
    return if processed == |instructions| then Ok(|sent|) else Err(SendFailed), sent;
  }

  /** The loop: up to the end, or to a batch that is not sent. */
  method SendAll<I>(instructions: seq<I>, size: seq<I> -> nat, sends: nat -> bool)
    returns (sent: seq<seq<I>>, processed: nat)
    ensures processed <= |instructions| && SentTo(instructions, size, processed, sent) && AllSucceed(sends, |sent|)
    ensures processed < |instructions| ==> !sends(|sent|)
  {
    sent, processed := [], 0;
    while processed < |instructions|
      invariant 0 <= processed <= |instructions|
      invariant SentTo(instructions, size, processed, sent)
      invariant AllSucceed(sends, |sent|)
    {
      var n := CreateTransaction(instructions, processed, size);
      if !sends(|sent|) {
        return sent, processed;
      }
      sent, processed := SendOne(instructions, size, processed, n, sent), processed + n;
    }
  }

  /** One more batch sent. */
  function SendOne<I>(s: seq<I>, size: seq<I> -> nat, k: nat, n: nat, sent: seq<seq<I>>): (sent': seq<seq<I>>)
    requires SentTo(s, size, k, sent) && k < |s| && k + n == CutAt(s, size, k)
    ensures k < k + n <= |s| && SentTo(s, size, k + n, sent') && |sent'| == |sent| + 1
  {
    NextBatch(s, size, k, n, sent);
    sent + [s[k..k + n]]
  }

  lemma SentIs<I>(s: seq<I>, size: seq<I> -> nat, k: nat, sent: seq<seq<I>>)
    requires k <= |s| && SentTo(s, size, k, sent)
    ensures sent <= Batches(s, size, 0)
    ensures k == |s| ==> sent == Batches(s, size, 0)
    ensures k < |s| ==> |sent| < |Batches(s, size, 0)|
  {
    if k < |s| {
      FirstBatch(s, size, k, CutAt(s, size, k) - k);
    }
  }
}
