/** What a mixer plays over a whole run: which frames, how many, and in which order of inputs. */
module MixerLaws {
  import opened Bytes
  import opened AudioConfig
  import opened GraphNodes

  predicate Distinct<T(==)>(xs: seq<T>) {
    forall i, j :: 0 <= i < j < |xs| ==> xs[i] != xs[j]
  }

  /** Freshly reset inputs with something to play and no underruns; their buffers may have been filled or not. */
  predicate FreshInputs(sources: seq<Source>) {
    forall j :: 0 <= j < |sources| ==> sources[j].total > 0 && sources[j].processed == 0 && !sources[j].starved
  }

  /** The frames of an input: all of them, or one buffer of silence if it was not filled. */
  function Reach(s: Source): nat {
    if s.filled then s.total else Min(s.total, FRAMES_PER_BUFFER)
  }

  function Longest(sources: seq<Source>): nat {
    if sources == [] then 0
    else
      var m, t := Longest(sources[..|sources| - 1]), Reach(sources[|sources| - 1]);
      if m < t then t else m
  }

  lemma {:induction false} LongestIsMaximum(sources: seq<Source>, k: nat)
    ensures k < Longest(sources) <==> exists j :: 0 <= j < |sources| && k < Reach(sources[j])
  {
    hide Reach;
    if sources != [] {
      var pre, last := sources[..|sources| - 1], sources[|sources| - 1];
      LongestIsMaximum(pre, k);
      if k < Reach(last) {
        assert k < Reach(sources[|sources| - 1]);
      } else if k < Longest(pre) {
        var j :| 0 <= j < |pre| && k < Reach(pre[j]);
        assert k < Reach(sources[j]);
      } else {
        forall j | 0 <= j < |sources|
          ensures k >= Reach(sources[j])
        {
          if j < |pre| {
            assert k >= Reach(pre[j]);
          }
        }
      }
    }
  }

  // ---------------------------------------------------------------- rounds

  /** The inputs after `k` calls of the mixer. */
  function Rounds<T(==)>(inputs: seq<T>, sources: seq<Source>, k: nat): (r: seq<Source>)
    requires |inputs| == |sources|
    ensures |r| == |sources|
  {
    if k == 0 then sources
    else
      var now := Rounds(inputs, sources, k - 1);
      seq(|now|, j requires 0 <= j < |now| => After(now[j], Occurrences(inputs, inputs[j])))
  }

  lemma {:induction false} OccursAtMostOnce<T>(xs: seq<T>, n: nat, x: T)
    requires Distinct(xs) && n <= |xs|
    ensures Occurrences(xs[..n], x) == if x in xs[..n] then 1 else 0
  {
    if n != 0 {
      OccursAtMostOnce(xs, n - 1, x);
      assert xs[..n][..n - 1] == xs[..n - 1];
      assert xs[..n] == xs[..n - 1] + [xs[n - 1]];
    }
  }

  /** Every input has served one frame a round until it ran out. */
  lemma {:induction false} CountersAfter<T>(inputs: seq<T>, sources: seq<Source>, k: nat, j: nat)
    requires |inputs| == |sources| && Distinct(inputs) && FreshInputs(sources) && j < |sources|
    ensures Rounds(inputs, sources, k)[j] == sources[j].(processed := Min(k, Reach(sources[j])))
  {
    if k != 0 {
      CountersAfter(inputs, sources, k - 1, j);
      OccursAtMostOnce(inputs, |inputs|, inputs[j]);
      assert inputs[..|inputs|] == inputs;
    }
  }

  /** In round `k` exactly the inputs that reach beyond frame `k` are heard, each with its frame `k`. */
  lemma HeardInRound<T>(inputs: seq<T>, sources: seq<Source>, k: nat, j: nat)
    requires |inputs| == |sources| && Distinct(inputs) && FreshInputs(sources) && j < |sources|
    ensures Heard(inputs, Rounds(inputs, sources, k), j)
            == if k < Reach(sources[j]) then Some(FrameFrom(sources[j], k)) else None
  {
    CountersAfter(inputs, sources, k, j);
    OccursAtMostOnce(inputs, j, inputs[j]);
  }

  /** The mixer plays exactly as far as its longest input reaches. */
  lemma PlaysExactlyLongest<T>(inputs: seq<T>, sources: seq<Source>, k: nat)
    requires |inputs| == |sources| && Distinct(inputs) && FreshInputs(sources)
    ensures AnyHeard(inputs, Rounds(inputs, sources, k), |inputs|) <==> k < Longest(sources)
  {
    hide Heard, Rounds;
    LongestIsMaximum(sources, k);
    var now := Rounds(inputs, sources, k);
    forall j | 0 <= j < |sources|
      ensures Heard(inputs, now, j).Some? <==> k < Reach(sources[j])
    {
      HeardInRound(inputs, sources, k, j);
    }
  }

  // ---------------------------------------------------------------- the frames

  /** Sample `i` of frame `k` of everything that is still playing, added up. */
  function PlainSum(sources: seq<Source>, k: nat, i: nat): int
    requires i < SAMPLES_PER_FRAME
  {
    if sources == [] then 0
    else
      var last := sources[|sources| - 1];
      PlainSum(sources[..|sources| - 1], k, i) + (if k < Reach(last) then FrameFrom(last, k)[i] else 0)
  }

  function MixerFrame(curve: int -> int16, sources: seq<Source>, k: nat): (f: seq<int16>)
    ensures |f| == SAMPLES_PER_FRAME
  {
    seq<int16>(SAMPLES_PER_FRAME, i requires 0 <= i < SAMPLES_PER_FRAME => SoftClip(curve, PlainSum(sources, k, i)))
  }

  lemma {:induction false} SumInRound<T>(inputs: seq<T>, sources: seq<Source>, k: nat, n: nat, i: nat)
    requires |inputs| == |sources| && Distinct(inputs) && FreshInputs(sources)
    requires n <= |sources| && i < SAMPLES_PER_FRAME
    ensures MixSum(inputs, Rounds(inputs, sources, k), n, i) == PlainSum(sources[..n], k, i)
  {
    if n != 0 {
      hide Heard, Rounds;
      SumInRound(inputs, sources, k, n - 1, i);
      HeardInRound(inputs, sources, k, n - 1);
      assert sources[..n][..n - 1] == sources[..n - 1];
    }
  }

  /** Frame `k` of a mix is the clipped sum of the frames `k` of its inputs, with no overflow on the way. */
  lemma FrameInRound<T>(curve: int -> int16, inputs: seq<T>, sources: seq<Source>, k: nat)
    requires |inputs| == |sources| <= 0xFFFF && Distinct(inputs) && FreshInputs(sources)
    ensures MixedFrame(curve, inputs, Rounds(inputs, sources, k)) == MixerFrame(curve, sources, k)
  {
    hide Rounds, MixSum, PlainSum, SoftClip, Wrap32;
    var now := Rounds(inputs, sources, k);
    forall i | 0 <= i < SAMPLES_PER_FRAME
      ensures MixedFrame(curve, inputs, now)[i] == MixerFrame(curve, sources, k)[i]
    {
      SumInRound(inputs, sources, k, |inputs|, i);
      assert sources[..|inputs|] == sources;
      AccumulatorNeverWraps(inputs, now, |inputs|, i);
    }
  }

  /** Sums of at most 30000 come out as they are, all others go through the curve. */
  lemma QuietMixIsSum(curve: int -> int16, sources: seq<Source>, k: nat, i: nat)
    requires i < SAMPLES_PER_FRAME
    ensures var sum := PlainSum(sources, k, i);
            MixerFrame(curve, sources, k)[i] == if -30000 <= sum <= 30000 then sum else curve(sum)
  {
    hide PlainSum;
  }

  /** The order in which inputs were connected makes no difference. */
  lemma {:induction false} SumIgnoresOrder(a: seq<Source>, b: seq<Source>, k: nat, i: nat)
    requires multiset(a) == multiset(b) && i < SAMPLES_PER_FRAME
    ensures PlainSum(a, k, i) == PlainSum(b, k, i)
    decreases |a|
  {
    if a == [] {
      assert |multiset(b)| == 0;
    } else {
      var last := a[|a| - 1];
      assert last in multiset(b);
      var p :| 0 <= p < |b| && b[p] == last;
      var rest := b[..p] + b[p + 1..];
      RemoveOne(a, b, p);
      SumIgnoresOrder(a[..|a| - 1], rest, k, i);
      SumRemove(b, p, k, i);
    }
  }

  lemma RemoveOne<T>(a: seq<T>, b: seq<T>, p: nat)
    requires multiset(a) == multiset(b) && a != [] && p < |b| && b[p] == a[|a| - 1]
    ensures multiset(a[..|a| - 1]) == multiset(b[..p] + b[p + 1..])
    ensures |b[..p] + b[p + 1..]| == |b| - 1
  {
    var pre, l, r, last := a[..|a| - 1], b[..p], b[p + 1..], a[|a| - 1];
    assert a == pre + [last];
    assert b == l + [last] + r;
    OneOut(pre, l, r, last);
  }

  lemma OneOut<T>(pre: seq<T>, l: seq<T>, r: seq<T>, x: T)
    requires multiset(pre + [x]) == multiset(l + [x] + r)
    ensures multiset(pre) == multiset(l + r)
  {
    assert multiset(pre) == multiset(pre + [x]) - multiset{x};
    Without(l, r, x);
  }

  lemma Without<T>(l: seq<T>, r: seq<T>, x: T)
    ensures multiset(l + r) == multiset(l + [x] + r) - multiset{x}
  {
    assert multiset(l + [x] + r) == multiset(l) + multiset{x} + multiset(r);
  }

  lemma {:induction false} SumRemove(b: seq<Source>, p: nat, k: nat, i: nat)
    requires p < |b| && i < SAMPLES_PER_FRAME
    ensures PlainSum(b, k, i) == PlainSum(b[..p] + b[p + 1..], k, i) + (if k < Reach(b[p]) then FrameFrom(b[p], k)[i] else 0)
    decreases |b|
  {
    var pre := b[..|b| - 1];
    if p == |b| - 1 {
      assert b[..p] + b[p + 1..] == pre;
    } else {
      SumRemove(pre, p, k, i);
      var rest := b[..p] + b[p + 1..];
      assert rest[..|rest| - 1] == pre[..p] + pre[p + 1..];
      assert rest[|rest| - 1] == b[|b| - 1];
    }
  }

  lemma MixIgnoresOrder(curve: int -> int16, a: seq<Source>, b: seq<Source>, k: nat)
    requires multiset(a) == multiset(b)
    ensures MixerFrame(curve, a, k) == MixerFrame(curve, b, k)
  {
    hide SoftClip, PlainSum;
    forall i | 0 <= i < SAMPLES_PER_FRAME
      ensures MixerFrame(curve, a, k)[i] == MixerFrame(curve, b, k)[i]
    {
      SumIgnoresOrder(a, b, k, i);
    }
  }
}
