/** What a reassembler makes of a numbered frame some of whose fragments are lost, told by the bodies of the
    fragments. */
module Loss {
  import opened Bytes
  import opened Reassembly

  /** Feeding the fragment numbered `index` of a frame of `total` octets. */
  function Fed(s: Assembly, index: nat, total: nat, body: bytes): (Assembly, Result<Option<bytes>>) {
    if index == 0 then Append(Assembly([], total, 0), body)
    else if index == s.next then Append(s, body)
    else (FRESH, Err(OutOfOrder(index, s.next)))
  }

  function Out(r: Result<Option<bytes>>): seq<bytes> {
    if r.Ok? && r.value.Some? then [r.value.value] else []
  }

  /** What is delivered of the fragments from `index` on; `mask[i]` says whether the ith of them arrives. */
  function Heard(s: Assembly, bodies: seq<bytes>, index: nat, total: nat, mask: seq<bool>): seq<bytes>
    requires |mask| == |bodies|
    decreases |mask|
  {
    if mask == [] then []
    else if !mask[0] then Heard(s, bodies[1..], index + 1, total, mask[1..])
    else
      var (next, r) := Fed(s, index, total, bodies[0]);
      Out(r) + Heard(next, bodies[1..], index + 1, total, mask[1..])
  }

  /** The state they leave behind. */
  function After(s: Assembly, bodies: seq<bytes>, index: nat, total: nat, mask: seq<bool>): Assembly
    requires |mask| == |bodies|
    decreases |mask|
  {
    if mask == [] then s
    else if !mask[0] then After(s, bodies[1..], index + 1, total, mask[1..])
    else After(Fed(s, index, total, bodies[0]).0, bodies[1..], index + 1, total, mask[1..])
  }

  /** What each fragment returns when none is lost. */
  function Results(s: Assembly, bodies: seq<bytes>, index: nat, total: nat): seq<Result<Option<bytes>>>
    decreases |bodies|
  {
    if bodies == [] then []
    else
      var (next, r) := Fed(s, index, total, bodies[0]);
      [r] + Results(next, bodies[1..], index + 1, total)
  }

  predicate All(mask: seq<bool>) {
    forall i :: 0 <= i < |mask| ==> mask[i]
  }

  lemma {:induction false} AllTail(mask: seq<bool>)
    requires mask != []
    ensures All(mask) <==> mask[0] && All(mask[1..])
  {
    if mask[0] && All(mask[1..]) {
      forall i | 0 <= i < |mask|
        ensures mask[i]
      {
        if i > 0 { assert mask[1..][i - 1]; }
      }
    }
    if All(mask) {
      forall i | 0 <= i < |mask| - 1
        ensures mask[1..][i]
      {
        assert mask[i + 1];
      }
    }
  }

  /** The first fragment to arrive, or their number if none does. */
  function First(mask: seq<bool>): (f: nat)
    ensures f <= |mask| && (f < |mask| ==> mask[f])
  {
    if mask == [] || mask[0] then 0 else 1 + First(mask[1..])
  }

  /** Every fragment carries something. */
  predicate Full(bodies: seq<bytes>) {
    forall i :: 0 <= i < |bodies| ==> bodies[i] != []
  }

  lemma {:induction false} ConcatAppend(a: seq<bytes>, b: seq<bytes>)
    ensures Concat(a + b) == Concat(a) + Concat(b)
  {
    if a == [] {
      assert a + b == b;
    } else {
      assert (a + b)[1..] == a[1..] + b;
      ConcatAppend(a[1..], b);
    }
  }

  lemma {:induction false} ConcatPrefix(bodies: seq<bytes>, n: nat)
    requires 0 < n <= |bodies|
    ensures Concat(bodies[..n]) == bodies[0] + Concat(bodies[1..][..n - 1])
  {
    assert bodies[..n][1..] == bodies[1..][..n - 1];
  }

  // ----- a frame whose opening fragment arrives -----

  /** Once a fragment is missed, the rest of its frame delivers nothing. */
  lemma {:induction false} Stray(s: Assembly, bodies: seq<bytes>, index: nat, total: nat, mask: seq<bool>)
    requires |mask| == |bodies| && s.next < index
    ensures Heard(s, bodies, index, total, mask) == []
    decreases |mask|
  {
    if mask != [] {
      Stray(if mask[0] then FRESH else s, bodies[1..], index + 1, total, mask[1..]);
    }
  }

  /** A frame in progress is completed by its remaining fragments exactly when all of them arrive. */
  lemma {:induction false} Resume(held: bytes, bodies: seq<bytes>, index: nat, total: nat, mask: seq<bool>)
    requires |mask| == |bodies| > 0 && Full(bodies) && 0 < index && |held + Concat(bodies)| == total
    ensures var s := Assembly(held, total, index);
            && Heard(s, bodies, index, total, mask) == (if All(mask) then [held + Concat(bodies)] else [])
            && (All(mask) ==> After(s, bodies, index, total, mask) == FRESH)
    decreases |mask|
  {
    AllTail(mask);
    if !mask[0] {
      Stray(Assembly(held, total, index), bodies[1..], index + 1, total, mask[1..]);
    } else if |mask| == 1 {
      assert Concat(bodies) == bodies[0] + [] == bodies[0];
    } else {
      OneBody(held, bodies, 1);
      Resume(held + bodies[0], bodies[1..], index + 1, total, mask[1..]);
    }
  }

  /** One frame whose opening fragment arrives, from any state: delivered exactly when nothing was lost. */
  lemma {:induction false} OneFrame(s: Assembly, bodies: seq<bytes>, mask: seq<bool>)
    requires |mask| == |bodies| > 0 && Full(bodies) && mask[0]
    ensures var total := |Concat(bodies)|;
            && Heard(s, bodies, 0, total, mask) == (if All(mask) then [Concat(bodies)] else [])
            && (All(mask) ==> After(s, bodies, 0, total, mask) == FRESH)
  {
    var total := |Concat(bodies)|;
    AllTail(mask);
    assert [] + bodies[0] == bodies[0];
    if |mask| == 1 {
      assert Concat(bodies) == bodies[0] + [] == bodies[0];
    } else {
      assert bodies[1] != [] && Concat(bodies[1..]) == bodies[1] + Concat(bodies[1..][1..]);
      Resume(bodies[0], bodies[1..], 1, total, mask[1..]);
    }
  }

  /** What feeding a whole frame returns: nothing yet for every fragment but the last. */
  function Progress(n: nat, payload: bytes): seq<Result<Option<bytes>>>
    requires n > 0
  {
    if n == 1 then [Ok(Some(payload))] else [Ok(None)] + Progress(n - 1, payload)
  }

  lemma {:induction false} ProgressFrom(held: bytes, bodies: seq<bytes>, index: nat, total: nat)
    requires bodies != [] && Full(bodies) && 0 < index && |held + Concat(bodies)| == total
    ensures Results(Assembly(held, total, index), bodies, index, total)
         == Progress(|bodies|, held + Concat(bodies))
    decreases |bodies|
  {
    if |bodies| == 1 {
      assert Concat(bodies) == bodies[0] + [] == bodies[0];
    } else {
      OneBody(held, bodies, 1);
      assert Fed(Assembly(held, total, index), index, total, bodies[0])
          == (Assembly(held + bodies[0], total, index + 1), Ok(None));
      ProgressFrom(held + bodies[0], bodies[1..], index + 1, total);
    }
  }

  lemma {:induction false} ProgressWhole(s: Assembly, bodies: seq<bytes>)
    requires bodies != [] && Full(bodies)
    ensures Results(s, bodies, 0, |Concat(bodies)|) == Progress(|bodies|, Concat(bodies))
  {
    assert [] + bodies[0] == bodies[0];
    if |bodies| == 1 {
      assert Concat(bodies) == bodies[0] + [] == bodies[0];
    } else {
      assert bodies[1] != [] && Concat(bodies[1..]) == bodies[1] + Concat(bodies[1..][1..]);
      ProgressFrom(bodies[0], bodies[1..], 1, |Concat(bodies)|);
    }
  }

  /** The first k fragments of a frame arrive and no others. */
  predicate BreaksOff(mask: seq<bool>, k: nat) {
    k < |mask| && All(mask[..k]) && forall i :: k <= i < |mask| ==> !mask[i]
  }

  lemma {:induction false} BreaksOffTail(mask: seq<bool>, k: nat)
    requires BreaksOff(mask, k) && k > 0
    ensures mask[0] && BreaksOff(mask[1..], k - 1)
  {
    assert mask[..k][1..] == mask[1..][..k - 1];
    AllTail(mask[..k]);
  }

  lemma {:induction false} NoneArrive(s: Assembly, bodies: seq<bytes>, index: nat, total: nat, mask: seq<bool>)
    requires |mask| == |bodies| && forall i :: 0 <= i < |mask| ==> !mask[i]
    ensures Heard(s, bodies, index, total, mask) == [] && After(s, bodies, index, total, mask) == s
    decreases |mask|
  {
    if mask != [] {
      NoneArrive(s, bodies[1..], index + 1, total, mask[1..]);
    }
  }

  /** A frame that breaks off leaves what has arrived of it. */
  lemma {:induction false} Broken(
      held: bytes, bodies: seq<bytes>, index: nat, total: nat, mask: seq<bool>, k: nat)
    requires |mask| == |bodies| && Full(bodies) && 0 < index && |held + Concat(bodies)| == total
    requires BreaksOff(mask, k)
    ensures var s := Assembly(held, total, index);
            && Heard(s, bodies, index, total, mask) == []
            && After(s, bodies, index, total, mask) == Assembly(held + Concat(bodies[..k]), total, index + k)
    decreases k
  {
    if k == 0 {
      NoneArrive(Assembly(held, total, index), bodies, index, total, mask);
      assert bodies[..0] == [] && held + [] == held;
    } else {
      BreaksOffTail(mask, k);
      OneBody(held, bodies, k);
      Broken(held + bodies[0], bodies[1..], index + 1, total, mask[1..], k - 1);
    }
  }

  lemma {:induction false} OneBody(held: bytes, bodies: seq<bytes>, k: nat)
    requires 0 < k < |bodies| && Full(bodies)
    ensures (held + bodies[0]) + Concat(bodies[1..]) == held + Concat(bodies)
    ensures Concat(bodies[1..]) != [] && Full(bodies[1..])
    ensures (held + bodies[0]) + Concat(bodies[1..][..k - 1]) == held + Concat(bodies[..k])
  {
    ConcatPrefix(bodies, k);
    assert bodies[1] != [] && Concat(bodies[1..]) == bodies[1] + Concat(bodies[1..][1..]);
  }

  lemma {:induction false} BrokenFrame(s: Assembly, bodies: seq<bytes>, mask: seq<bool>, k: nat)
    requires |mask| == |bodies| && Full(bodies) && 0 < k && BreaksOff(mask, k)
    ensures var total := |Concat(bodies)|;
            && Heard(s, bodies, 0, total, mask) == []
            && After(s, bodies, 0, total, mask) == Assembly(Concat(bodies[..k]), total, k)
  {
    var total := |Concat(bodies)|;
    BreaksOffTail(mask, k);
    assert [] + bodies[0] == bodies[0];
    assert bodies[1] != [] && Concat(bodies[1..]) == bodies[1] + Concat(bodies[1..][1..]);
    Broken(bodies[0], bodies[1..], 1, total, mask[1..], k - 1);
    ConcatPrefix(bodies, k);
  }

  // ----- a frame whose opening fragment is lost -----

  /** What comes of fragments that go on where the reassembler was left. */
  function Mixture(held: bytes, expected: nat, bodies: seq<bytes>, mask: seq<bool>): seq<bytes>
    requires |mask| == |bodies|
    decreases |mask|
  {
    if mask == [] || !mask[0] then []
    else
      var more := held + bodies[0];
      if |more| > expected then []
      else if |more| == expected then [more]
      else Mixture(more, expected, bodies[1..], mask[1..])
  }

  lemma {:induction false} Continued(s: Assembly, bodies: seq<bytes>, index: nat, total: nat, mask: seq<bool>)
    requires |mask| == |bodies| && 0 < index == s.next
    ensures Heard(s, bodies, index, total, mask) == Mixture(s.buffer, s.expected, bodies, mask)
    decreases |mask|
  {
    if mask != [] {
      var next := if mask[0] then Append(s, bodies[0]).0 else s;
      if mask[0] && |s.buffer + bodies[0]| < s.expected {
        Continued(next, bodies[1..], index + 1, total, mask[1..]);
      } else {
        Stray(next, bodies[1..], index + 1, total, mask[1..]);
      }
    }
  }

  /** The first fragment to arrive is the one the state awaits, and fragments follow it without a gap, up to number n,
      until exactly the length expected of the frame that was broken off is reached. */
  predicate Splices(s: Assembly, bodies: seq<bytes>, mask: seq<bool>, n: nat)
    requires |mask| == |bodies|
  {
    && 0 < First(mask) == s.next < n <= |mask| && All(mask[s.next..n])
    && |s.buffer + Concat(bodies[s.next..n])| == s.expected
  }

  /** The n first fragments bring what is held to the expected length. */
  predicate Joins(held: bytes, expected: nat, bodies: seq<bytes>, mask: seq<bool>, n: nat)
    requires |mask| == |bodies|
  {
    0 < n <= |mask| && All(mask[..n]) && |held + Concat(bodies[..n])| == expected
  }

  lemma {:induction false} MixtureOf(held: bytes, expected: nat, bodies: seq<bytes>, mask: seq<bool>, n: nat)
    requires |mask| == |bodies| && Full(bodies) && Joins(held, expected, bodies, mask, n)
    ensures Mixture(held, expected, bodies, mask) == [held + Concat(bodies[..n])]
    decreases n
  {
    ConcatPrefix(bodies, n);
    assert mask[..n][1..] == mask[1..][..n - 1];
    AllTail(mask[..n]);
    var more := held + bodies[0];
    assert more + Concat(bodies[1..][..n - 1]) == held + Concat(bodies[..n]);
    if n == 1 {
      assert bodies[1..][..0] == [] && more + [] == more;
    } else {
      ConcatPrefix(bodies[1..], n - 1);
      assert bodies[1] != [];
      MixtureOf(more, expected, bodies[1..], mask[1..], n - 1);
    }
  }

  lemma {:induction false} MixtureJoins(held: bytes, expected: nat, bodies: seq<bytes>, mask: seq<bool>)
    returns (n: nat)
    requires |mask| == |bodies| && Mixture(held, expected, bodies, mask) != []
    ensures Joins(held, expected, bodies, mask, n)
    decreases |mask|
  {
    var more := held + bodies[0];
    if |more| == expected {
      n := 1;
      assert bodies[..1] == [bodies[0]] && Concat([bodies[0]]) == bodies[0] + [] == bodies[0];
    } else {
      var m := MixtureJoins(more, expected, bodies[1..], mask[1..]);
      n := m + 1;
      ConcatPrefix(bodies, n);
      assert more + Concat(bodies[1..][..m]) == held + Concat(bodies[..n]);
      assert mask[..n][1..] == mask[1..][..m];
      AllTail(mask[..n]);
    }
  }

  /** Up to the first fragment that arrives nothing happens. */
  lemma {:induction false} Skipped(s: Assembly, bodies: seq<bytes>, index: nat, total: nat, mask: seq<bool>)
    requires |mask| == |bodies|
    ensures var f := First(mask);
            Heard(s, bodies, index, total, mask) == Heard(s, bodies[f..], index + f, total, mask[f..])
    decreases |mask|
  {
    if mask != [] && !mask[0] {
      Skipped(s, bodies[1..], index + 1, total, mask[1..]);
      var f := First(mask[1..]);
      assert bodies[1..][f..] == bodies[f + 1..] && mask[1..][f..] == mask[f + 1..];
    } else {
      assert bodies[0..] == bodies && mask[0..] == mask;
    }
  }

  lemma {:induction false} Headless(s: Assembly, bodies: seq<bytes>, total: nat, mask: seq<bool>)
    requires |mask| == |bodies| && 0 < First(mask)
    ensures var f := First(mask);
            Heard(s, bodies, 0, total, mask)
            == if f == |mask| || f != s.next then [] else Mixture(s.buffer, s.expected, bodies[f..], mask[f..])
  {
    var f := First(mask);
    Skipped(s, bodies, 0, total, mask);
    if f < |mask| {
      if f == s.next {
        Continued(s, bodies[f..], f, total, mask[f..]);
      } else {
        Stray(FRESH, bodies[f..][1..], f + 1, total, mask[f..][1..]);
      }
    }
  }

  /** A frame whose opening fragment is lost delivers something exactly when it splices, and then a mixture. */
  lemma {:induction false} HeadlessExactly(s: Assembly, bodies: seq<bytes>, total: nat, mask: seq<bool>)
    requires |mask| == |bodies| && Full(bodies) && 0 < First(mask)
    ensures Heard(s, bodies, 0, total, mask) == [] <==> !exists n: nat :: Splices(s, bodies, mask, n)
    ensures forall n: nat :: Splices(s, bodies, mask, n) ==>
              Heard(s, bodies, 0, total, mask) == [s.buffer + Concat(bodies[s.next..n])]
  {
    var f := First(mask);
    Headless(s, bodies, total, mask);
    if f == s.next && f < |mask| {
      if Mixture(s.buffer, s.expected, bodies[f..], mask[f..]) != [] {
        var m := MixtureJoins(s.buffer, s.expected, bodies[f..], mask[f..]);
        assert bodies[f..][..m] == bodies[f..f + m] && mask[f..][..m] == mask[f..f + m];
        assert Splices(s, bodies, mask, f + m);
      }
    }
    forall n: nat | Splices(s, bodies, mask, n)
      ensures Heard(s, bodies, 0, total, mask) == [s.buffer + Concat(bodies[s.next..n])]
    {
      assert bodies[f..][..n - f] == bodies[f..n] && mask[f..][..n - f] == mask[f..n];
      MixtureOf(s.buffer, s.expected, bodies[f..], mask[f..], n - f);
    }
  }

  /** What one frame delivers, whatever it lost. */
  lemma {:induction false} AnyFrame(s: Assembly, bodies: seq<bytes>, mask: seq<bool>)
    requires |mask| == |bodies| > 0 && Full(bodies)
    ensures var heard := Heard(s, bodies, 0, |Concat(bodies)|, mask);
            if exists n: nat :: Splices(s, bodies, mask, n) then |heard| == 1 && !All(mask)
            else heard == if All(mask) then [Concat(bodies)] else []
  {
    if mask[0] {
      OneFrame(s, bodies, mask);
    } else {
      HeadlessExactly(s, bodies, |Concat(bodies)|, mask);
    }
  }
}
