/** The evaluator behind a session, reduced to what the pipeline relies on: one deterministic
    step per layer. A layer slice runs its layers in order and keeps one KV state per layer. */
module LayerSlices {

  datatype Model<!KV, !Hid, !Lg> = Model(
    embed: (seq<int>, nat) -> Hid,
    layer: (nat, KV, Hid, seq<int>, nat) -> (KV, Hid),
    head: Hid -> Lg,
    blank: nat -> KV)
  {
    /** Evaluate layers start, start + 1, ... over the given KV states. */
    function Slice(start: nat, kvs: seq<KV>, h: Hid, tokens: seq<int>, pos: nat): (r: (seq<KV>, Hid))
      ensures |r.0| == |kvs|
      decreases |kvs|
    {
      if kvs == [] then ([], h)
      else
        var (kv, h1) := layer(start, kvs[0], h, tokens, pos);
        var (rest, out) := Slice(start + 1, kvs[1..], h1, tokens, pos);
        ([kv] + rest, out)
    }

    /** What a slice is, layer by layer: layer start + k turns the k-th state and the k-th hidden value of
        a trace from h to the result into the new state and the next hidden value. */
    lemma {:induction false} SliceRuns(start: nat, kvs: seq<KV>, h: Hid, tokens: seq<int>, pos: nat)
      returns (trace: seq<Hid>)
      ensures |trace| == |kvs| + 1 && trace[0] == h && trace[|kvs|] == Slice(start, kvs, h, tokens, pos).1
      ensures forall k :: 0 <= k < |kvs| ==>
                layer(start + k, kvs[k], trace[k], tokens, pos) == (Slice(start, kvs, h, tokens, pos).0[k], trace[k + 1])
      decreases |kvs|
    {
      if kvs == [] {
        trace := [h];
      } else {
        var (kv, h1) := layer(start, kvs[0], h, tokens, pos);
        var rest := SliceRuns(start + 1, kvs[1..], h1, tokens, pos);
        trace := [h] + rest;
        forall k | 0 <= k < |kvs|
          ensures layer(start + k, kvs[k], trace[k], tokens, pos)
               == (Slice(start, kvs, h, tokens, pos).0[k], trace[k + 1])
        {
          if k > 0 {
            assert layer(start + 1 + (k - 1), kvs[1..][k - 1], rest[k - 1], tokens, pos)
                == (Slice(start + 1, kvs[1..], h1, tokens, pos).0[k - 1], rest[k]);
          }
        }
      }
    }

    /** KV states of a slice after a reset. */
    function Blank(start: nat, n: nat): seq<KV> {
      seq(n, k requires 0 <= k => blank(start + k))
    }

    /** Adjacent slices compose. */
    lemma {:induction false} SliceSplit(start: nat, a: seq<KV>, b: seq<KV>, h: Hid, tokens: seq<int>, pos: nat)
      ensures var (ka, ha) := Slice(start, a, h, tokens, pos);
              var (kb, hb) := Slice(start + |a|, b, ha, tokens, pos);
              Slice(start, a + b, h, tokens, pos) == (ka + kb, hb)
      decreases |a|
    {
      if a == [] {
        assert a + b == b;
        assert Slice(start, a, h, tokens, pos).0 + Slice(start, b, h, tokens, pos).0 == Slice(start, b, h, tokens, pos).0;
      } else {
        var (kv, h1) := layer(start, a[0], h, tokens, pos);
        assert (a + b)[0] == a[0] && (a + b)[1..] == a[1..] + b;
        SliceSplit(start + 1, a[1..], b, h1, tokens, pos);
        var (ka, ha) := Slice(start + 1, a[1..], h1, tokens, pos);
        var (kb, hb) := Slice(start + |a|, b, ha, tokens, pos);
        assert [kv] + (ka + kb) == ([kv] + ka) + kb;
      }
    }
  }
}
