/**
 * Specification of the streaming frame buffer: how a byte stream splits
 * into whole frames of `n` bytes and a trailing remainder. The buffer
 * method of the wrapper class is proved against these functions.
 */
module Chunking {
  import opened Ints

  /** The consecutive `n`-element slices of `s`, front to back; a trailing piece shorter than `n` is not a frame. */
  function FullFrames<T>(s: seq<T>, n: nat): (frames: seq<seq<T>>)
    requires n > 0
    ensures forall i | 0 <= i < |frames| :: |frames[i]| == n
    decreases |s|
  {
    if |s| < n then [] else [s[..n]] + FullFrames(s[n..], n)
  }

  /** What is left of `s` once every whole frame has been taken off its front: a suffix shorter than a frame. */
  function Remainder<T>(s: seq<T>, n: nat): (r: seq<T>)
    requires n > 0
    ensures |r| < n && |r| <= |s|
    decreases |s|
  {
    if |s| < n then s else Remainder(s[n..], n)
  }

  /** The frames joined back together, in order. */
  function Flatten<T>(frames: seq<seq<T>>): (s: seq<T>) {
    if frames == [] then [] else frames[0] + Flatten(frames[1..])
  }

  /** Splitting loses and invents nothing: the frames followed by the remainder are the input. */
  lemma {:induction false} Conservation<T>(s: seq<T>, n: nat)
    requires n > 0
    ensures Flatten(FullFrames(s, n)) + Remainder(s, n) == s
  {
    if |s| >= n {
      var rest := FullFrames(s[n..], n);
      calc {
        Flatten(FullFrames(s, n)) + Remainder(s, n);
        Flatten([s[..n]] + rest) + Remainder(s[n..], n);
        { FlattenCons(s[..n], rest); }
        s[..n] + (Flatten(rest) + Remainder(s[n..], n));
        { Conservation(s[n..], n); }
        s[..n] + s[n..];
        s;
      }
    }
  }

  /** There are `|s| / n` frames and `|s| % n` bytes left over. */
  lemma {:induction false} FrameCount<T>(s: seq<T>, n: nat)
    requires n > 0
    ensures |FullFrames(s, n)| == |s| / n
    ensures |Remainder(s, n)| == |s| % n
  {
    if |s| < n {
      DivModUnique(|s|, n, 0, |s|);
    } else {
      assert |FullFrames(s, n)| == 1 + |FullFrames(s[n..], n)|;
      assert Remainder(s, n) == Remainder(s[n..], n);
      FrameCount(s[n..], n);
      var m := |s| - n;
      assert m == m / n * n + m % n;
      assert |s| == (m / n + 1) * n + m % n;
      DivModUnique(|s|, n, m / n + 1, m % n);
    }
  }

  /** The remainder is the last `|s| % n` elements of the input. */
  lemma {:induction false} RemainderIsSuffix<T>(s: seq<T>, n: nat)
    requires n > 0
    ensures Remainder(s, n) == s[|s| - |s| % n..]
  {
    FrameCount(s, n);
    if |s| >= n {
      RemainderIsSuffix(s[n..], n);
      assert Remainder(s, n) == Remainder(s[n..], n);
      assert s[n..][|s| - n - |s| % n..] == s[|s| - |s| % n..];
    }
  }

  /** Frame `k` is the `k`-th consecutive `n`-byte slice of the input. */
  lemma {:induction false} FrameAt<T>(s: seq<T>, n: nat, k: nat)
    requires n > 0 && k < |FullFrames(s, n)|
    ensures (k + 1) * n <= |s|
    ensures FullFrames(s, n)[k] == s[k * n..(k + 1) * n]
  {
    if k > 0 {
      FrameAt(s[n..], n, k - 1);
      assert (k - 1) * n + n == k * n;
      assert k * n + n == (k + 1) * n;
    }
  }

  /**
   * Feeding the stream in two pieces gives the frames of the whole: the
   * frames of `a`, then those of `a`'s remainder followed by `b`, and the
   * same final remainder as feeding `a + b` at once.
   */
  lemma {:induction false} Streaming<T>(a: seq<T>, b: seq<T>, n: nat)
    requires n > 0
    ensures FullFrames(a + b, n) == FullFrames(a, n) + FullFrames(Remainder(a, n) + b, n)
    ensures Remainder(a + b, n) == Remainder(Remainder(a, n) + b, n)
  {
    if |a| >= n {
      assert (a + b)[..n] == a[..n];
      assert (a + b)[n..] == a[n..] + b;
      assert FullFrames(a + b, n) == [a[..n]] + FullFrames(a[n..] + b, n);
      assert FullFrames(a, n) == [a[..n]] + FullFrames(a[n..], n);
      assert Remainder(a, n) == Remainder(a[n..], n);
      assert Remainder(a + b, n) == Remainder(a[n..] + b, n);
      Streaming(a[n..], b, n);
    }
  }

  lemma FlattenCons<T>(f: seq<T>, frames: seq<seq<T>>)
    ensures Flatten([f] + frames) == f + Flatten(frames)
  {
    assert ([f] + frames)[1..] == frames;
  }

  /** Appending one frame appends its elements. */
  lemma {:induction false} FlattenSnoc<T>(frames: seq<seq<T>>, f: seq<T>)
    ensures Flatten(frames + [f]) == Flatten(frames) + f
  {
    if frames != [] {
      FlattenSnoc(frames[1..], f);
      assert (frames + [f])[1..] == frames[1..] + [f];
    }
  }

  /** Flattening distributes over concatenation of frame lists. */
  lemma {:induction false} FlattenAppend<T>(x: seq<seq<T>>, y: seq<seq<T>>)
    ensures Flatten(x + y) == Flatten(x) + Flatten(y)
  {
    if x == [] {
      assert x + y == y;
    } else {
      calc {
        Flatten(x + y);
        { assert (x + y)[0] == x[0] && (x + y)[1..] == x[1..] + y; }
        x[0] + Flatten(x[1..] + y);
        { FlattenAppend(x[1..], y); }
        x[0] + (Flatten(x[1..]) + Flatten(y));
        (x[0] + Flatten(x[1..])) + Flatten(y);
      }
    }
  }

  /** Whatever precedes the remainder in `s` is the frames' contents. */
  lemma BeforeRemainder<T>(x: seq<T>, s: seq<T>, n: nat)
    requires n > 0 && x + Remainder(s, n) == s
    ensures x == Flatten(FullFrames(s, n))
  {
    Conservation(s, n);
    var r := Remainder(s, n);
    assert x == (x + r)[..|x|];
    assert Flatten(FullFrames(s, n)) == (Flatten(FullFrames(s, n)) + r)[..|s| - |r|];
  }
}
