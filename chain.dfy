/**
 * ChainTransformer (pkg/transforms/chain.go): a fixed list of transformers
 * applied in list order on the way in and in reversed order on the way out,
 * stopping at the first error in either direction.
 *
 * `Forwards(lib, ts, input, nonces, n)` is the result of running the first n
 * transformers; `Backwards(lib, ts, k, n, input)` is the result of undoing
 * ts[k..n], last one first. `nonces(i)` is the nonce transformer i draws
 * when it is AES.
 */
module Chain {
  import opened Streams
  import opened Primitives
  import opened Transforms

  /** Run ts[0], ts[1], ..., ts[n-1] in that order; each one's output is the next one's input. */
  function Forwards(lib: Library, ts: seq<Transformer>, input: Reader, nonces: nat -> Option<Nonce>, n: nat): (r: Result<Reader>)
    requires n <= |ts|
    ensures n == 0 ==> r == Ok(input)
    ensures n > 0 && r.Ok? ==> r.value.fault == None
  {
    if n == 0 then Ok(input)
    else
      match Forwards(lib, ts, input, nonces, n - 1)
      case Err(e) => Err(e)
      case Ok(c) => Forward(lib, ts[n - 1], c, nonces(n - 1))
  }

  /** The nonce oracle seen by the tail of a chain, once its head has drawn. */
  function Shift(nonces: nat -> Option<Nonce>): (tail: nat -> Option<Nonce>)
    ensures forall i: nat :: tail(i) == nonces(i + 1)
  {
    (i: nat) => nonces(i + 1)
  }

  /** Transformer 0 runs first, on the chain's own input, and the rest of the chain runs on its output. */
  lemma {:induction false} ForwardsFirst(lib: Library, ts: seq<Transformer>, input: Reader, nonces: nat -> Option<Nonce>, n: nat)
    requires 0 < n <= |ts|
    ensures Forwards(lib, ts, input, nonces, n) ==
              (match Forward(lib, ts[0], input, nonces(0))
               case Err(e) => Err(e)
               case Ok(c) => Forwards(lib, ts[1..], c, Shift(nonces), n - 1))
  {
    if n > 1 {
      ForwardsFirst(lib, ts, input, nonces, n - 1);
      assert ts[1..][n - 2] == ts[n - 1];
      assert Shift(nonces)(n - 2) == nonces(n - 1);
    }
  }

  /** Undo ts[n-1], ts[n-2], ..., ts[k] in that order, starting from `input`. */
  function Backwards(lib: Library, ts: seq<Transformer>, k: nat, n: nat, input: Reader): (r: Result<Reader>)
    requires k <= n <= |ts|
    ensures k == n ==> r == Ok(input)
    ensures k < n && r.Ok? ==> r.value.fault == None
    ensures k < n && input.fault.Some? ==> r.Err?
    decreases n - k
  {
    if k == n then Ok(input)
    else
      match Backwards(lib, ts, k + 1, n, input)
      case Err(e) => Err(e)
      case Ok(c) => Reverse(lib, ts[k], c)
  }

  /** Backwards undoes the last transformer of the range first. */
  lemma {:induction false} BackwardsTop(lib: Library, ts: seq<Transformer>, k: nat, n: nat, input: Reader)
    requires k < n <= |ts|
    ensures Backwards(lib, ts, k, n, input) ==
              (match Reverse(lib, ts[n - 1], input)
               case Err(e) => Err(e)
               case Ok(c) => Backwards(lib, ts, k, n - 1, c))
    decreases n - k
  {
    if k < n - 1 {
      BackwardsTop(lib, ts, k + 1, n, input);
    }
  }

  /** Fail-fast forwards: once the first k transformers have failed, the later ones are never run
      and the chain returns that same error. */
  lemma {:induction false} ForwardsFailFast(lib: Library, ts: seq<Transformer>, input: Reader, nonces: nat -> Option<Nonce>, k: nat, n: nat)
    requires k <= n <= |ts|
    requires Forwards(lib, ts, input, nonces, k).Err?
    ensures Forwards(lib, ts, input, nonces, n) == Forwards(lib, ts, input, nonces, k)
    decreases n - k
  {
    if k < n {
      ForwardsFailFast(lib, ts, input, nonces, k, n - 1);
      assert Forwards(lib, ts, input, nonces, n - 1).Err?;
    }
  }

  /** Fail-fast backwards: once undoing ts[k..n] has failed, ts[j..k] is never run. */
  lemma {:induction false} BackwardsFailFast(lib: Library, ts: seq<Transformer>, j: nat, k: nat, n: nat, input: Reader)
    requires j <= k <= n <= |ts|
    requires Backwards(lib, ts, k, n, input).Err?
    ensures Backwards(lib, ts, j, n, input) == Backwards(lib, ts, k, n, input)
    decreases k - j
  {
    if j < k {
      BackwardsFailFast(lib, ts, j + 1, k, n, input);
    }
  }

  /** The chain round trip: when every transformer in the list is reversible, undoing the whole list
      after running it gives back the original input, whatever nonces were drawn. */
  lemma {:induction false} ChainRoundTrip(lib: Library, ts: seq<Transformer>, input: Reader, nonces: nat -> Option<Nonce>, n: nat)
    requires n <= |ts|
    requires forall i :: 0 <= i < n ==> Reversible(lib, ts[i])
    requires Forwards(lib, ts, input, nonces, n).Ok?
    ensures Backwards(lib, ts, 0, n, Forwards(lib, ts, input, nonces, n).value) == Ok(input)
  {
    if n > 0 {
      var before := Forwards(lib, ts, input, nonces, n - 1).value;
      var after := Forwards(lib, ts, input, nonces, n).value;
      assert Forward(lib, ts[n - 1], before, nonces(n - 1)) == Ok(after);
      assert Reversible(lib, ts[n - 1]);
      assert Reverse(lib, ts[n - 1], after) == Ok(before);
      BackwardsTop(lib, ts, 0, n, after);
      ChainRoundTrip(lib, ts, input, nonces, n - 1);
    }
  }

  /** With sound primitives every chain the factory can build round-trips. */
  lemma SoundChainRoundTrip(lib: Library, ts: seq<Transformer>, input: Reader, nonces: nat -> Option<Nonce>)
    requires Sound(lib)
    requires Forwards(lib, ts, input, nonces, |ts|).Ok?
    ensures Backwards(lib, ts, 0, |ts|, Forwards(lib, ts, input, nonces, |ts|).value) == Ok(input)
  {
    forall i | 0 <= i < |ts| ensures Reversible(lib, ts[i]) {
      AllReversible(lib, ts[i]);
    }
    ChainRoundTrip(lib, ts, input, nonces, |ts|);
  }

  /** Forwards succeeds on every fault-free input when randomness never fails. */
  lemma {:induction false} ForwardsSucceeds(lib: Library, ts: seq<Transformer>, input: Reader, nonces: nat -> Option<Nonce>, n: nat)
    requires n <= |ts|
    requires input.fault == None
    requires forall i :: 0 <= i < n ==> nonces(i).Some?
    ensures Forwards(lib, ts, input, nonces, n).Ok?
  {
    if n > 0 {
      ForwardsSucceeds(lib, ts, input, nonces, n - 1);
      var c := Forwards(lib, ts, input, nonces, n - 1).value;
      if n - 1 > 0 {
        assert c.fault == None;
      }
      ForwardSucceeds(lib, ts[n - 1], c, nonces(n - 1));
    }
  }

  class ChainTransformer {
    /** Fixed at construction; neither direction changes it. */
    const transformers: seq<Transformer>

    /** NewChainTransformer. */
    constructor (transformers: seq<Transformer>)
      ensures this.transformers == transformers
    {
      this.transformers := transformers;
    }

    /** Transform: run every transformer in list order, returning the first error. */
    method Transform(lib: Library, input: Reader, nonces: nat -> Option<Nonce>) returns (out: Result<Reader>)
      ensures out == Forwards(lib, transformers, input, nonces, |transformers|)
      ensures transformers == [] ==> out == Ok(input)
    {
      var current := input;
      var i := 0;
      while i < |transformers|
        invariant 0 <= i <= |transformers|
        invariant Forwards(lib, transformers, input, nonces, i) == Ok(current)
      {
        var next := Apply(lib, transformers[i], current, nonces(i));
        if next.Err? {
          ForwardsFailFast(lib, transformers, input, nonces, i + 1, |transformers|);
          return Err(next.error);
        }
        current := next.value;
        i := i + 1;
      }
      out := Ok(current);
    }

    /** ReverseTransform: undo every transformer from the last index down to 0, returning the first error. */
    method ReverseTransform(lib: Library, input: Reader) returns (out: Result<Reader>)
      ensures out == Backwards(lib, transformers, 0, |transformers|, input)
      ensures transformers == [] ==> out == Ok(input)
    {
      var current := input;
      var i := |transformers| - 1;
      while i >= 0
        invariant -1 <= i < |transformers|
        invariant Backwards(lib, transformers, i + 1, |transformers|, input) == Ok(current)
      {
        var next := Unapply(lib, transformers[i], current);
        if next.Err? {
          BackwardsFailFast(lib, transformers, 0, i, |transformers|, input);
          return Err(next.error);
        }
        current := next.value;
        i := i - 1;
      }
      out := Ok(current);
    }
  }
}
