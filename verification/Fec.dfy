/** The 10+2 erasure code, stearlight_fec_encode and stearlight_fec_recover. */
module Fec {
  import opened Wrappers
  import opened Field

  const DATA_SHARDS: nat := 10

  type Shard = seq<byte>

  // ---------- Specification ----------

  ghost predicate Rectangular(shards: seq<Shard>, size: nat) {
    forall i | 0 <= i < |shards| :: |shards[i]| == size
  }

  /** What byte v of shard i adds to parity k. */
  function Term(k: nat, i: nat, v: byte): byte {
    if k == 0 then v else Mul((i + 1) % 256, v)
  }

  /** The terms at byte j of the first n shards, summed over the shards the mask keeps. */
  function Sum(k: nat, shards: seq<Shard>, mask: seq<bool>, j: nat, n: nat): byte
    requires n <= |shards| && n <= |mask|
    requires forall i | 0 <= i < n :: j < |shards[i]|
    decreases n
  {
    if n == 0 then 0
    else if mask[n - 1] then Xor(Sum(k, shards, mask, j, n - 1), Term(k, n - 1, shards[n - 1][j]))
    else Sum(k, shards, mask, j, n - 1)
  }

  function Everything(n: nat): seq<bool> { seq(n, _ => true) }

  function Parity(k: nat, shards: seq<Shard>, size: nat): (p: Shard)
    requires forall i | 0 <= i < |shards| :: |shards[i]| == size
    ensures |p| == size
  {
    seq(size, j requires 0 <= j < size => Sum(k, shards, Everything(|shards|), j, |shards|))
  }

  /** The indices of the absent shards below n, in order. */
  function Missing(present: seq<bool>, n: nat): (m: seq<nat>)
    requires n <= |present|
    ensures forall i | 0 <= i < |m| :: m[i] < n && !present[m[i]]
    ensures forall i, k | 0 <= i < k < |m| :: m[i] < m[k]
    ensures |m| <= n
  {
    if n == 0 then []
    else if present[n - 1] then Missing(present, n - 1)
    else Missing(present, n - 1) + [n - 1]
  }

  /** When recovery succeeds: enough parity for the number of absent shards, parity 0 first. */
  predicate Enough(missing: nat, have0: bool, have1: bool) {
    missing == 0 || (missing == 1 && have0) || (missing == 2 && have0 && have1)
  }

  /** What remains of parity k at byte j once the present shards are taken out. */
  function Residue(k: nat, shards: seq<Shard>, present: seq<bool>, parity: Shard, j: nat): byte
    requires |present| == |shards| && j < |parity|
    requires forall i | 0 <= i < |shards| :: j < |shards[i]|
  {
    Xor(parity[j], Sum(k, shards, present, j, |shards|))
  }

  /** The first of two absent shards a < b, at one byte, from the two residues. */
  function SolveFirst(a: nat, b: nat, r0: byte, r1: byte): byte
    requires a < DATA_SHARDS && b < DATA_SHARDS
  {
    Div(Xor(r1, Mul(b + 1, r0)), Xor(a + 1, b + 1))
  }

  // ---------- Why recovery is right ----------

  lemma XorLaws(a: byte, b: byte, c: byte)
    ensures Xor(a, b) == Xor(b, a)
    ensures Xor(Xor(a, b), c) == Xor(a, Xor(b, c))
    ensures Xor(a, Xor(a, b)) == b
    ensures Xor(a, 0) == a == Xor(0, a)
    ensures Xor(a, a) == 0
  {
    AddComm(a, b);
    AddAssoc(a, b, c);
    AddCancel(a, b);
    AddZero(a);
    AddSelf(a);
  }

  function Negate(mask: seq<bool>): seq<bool> {
    seq(|mask|, i requires 0 <= i < |mask| => !mask[i])
  }

  /** The sum over all shards is the sum over the present ones plus the sum over the absent ones. */
  lemma {:induction false} SumSplits(k: nat, shards: seq<Shard>, mask: seq<bool>, j: nat, n: nat)
    requires n <= |shards| == |mask|
    requires forall i | 0 <= i < n :: j < |shards[i]|
    ensures Sum(k, shards, Everything(|shards|), j, n) ==
            Xor(Sum(k, shards, mask, j, n), Sum(k, shards, Negate(mask), j, n))
  {
    hide Xor, Term;
    if n == 0 {
      XorLaws(0, 0, 0);
    } else {
      SumSplits(k, shards, mask, j, n - 1);
      var p, q := Sum(k, shards, mask, j, n - 1), Sum(k, shards, Negate(mask), j, n - 1);
      var t := Term(k, n - 1, shards[n - 1][j]);
      XorLaws(p, q, t);
      XorLaws(q, t, 0);
      XorLaws(p, t, q);
    }
  }

  /** The sums only look at shards the mask keeps. */
  lemma {:induction false} SumAgrees(k: nat, s: seq<Shard>, t: seq<Shard>, mask: seq<bool>, j: nat, n: nat)
    requires n <= |s| == |t| == |mask|
    requires forall i | 0 <= i < n :: j < |s[i]| && j < |t[i]|
    requires forall i | 0 <= i < n && mask[i] :: s[i][j] == t[i][j]
    ensures Sum(k, s, mask, j, n) == Sum(k, t, mask, j, n)
    decreases n
  {
    if n != 0 { SumAgrees(k, s, t, mask, j, n - 1); }
  }

  // ---------- What the parities are ----------

  lemma TermSum(k: nat, i: nat, v: byte, w: byte)
    requires i < 255
    ensures Xor(Term(k, i, v), Term(k, i, w)) == if k == 0 then Xor(v, w) else Mul(i + 1, Xor(v, w))
  {
    hide Xor, Mul;
    MulDistributes(v, w, i + 1);
  }

  lemma {:induction false} SumChanges(k: nat, shards: seq<Shard>, mask: seq<bool>, i: nat, shard: Shard, j: nat, n: nat)
    requires i < n <= |shards| == |mask| && i < 255 && forall m | 0 <= m < |shards| :: j < |shards[m]|
    requires j < |shard| && forall m | 0 <= m < n :: mask[m]
    ensures
      var d := Xor(shards[i][j], shard[j]);
      Sum(k, shards[i := shard], mask, j, n) == Xor(Sum(k, shards, mask, j, n), if k == 0 then d else Mul(i + 1, d))
    decreases n
  {
    hide Xor, Mul, Term;
    var now := shards[i := shard];
    var p, was, new' := Sum(k, shards, mask, j, n - 1), Term(k, n - 1, shards[n - 1][j]), Term(k, n - 1, now[n - 1][j]);
    if i == n - 1 {
      SumAgrees(k, shards, now, mask, j, n - 1);
      TermSum(k, i, shards[i][j], shard[j]);
      XorLaws(p, was, Xor(was, new'));
      XorLaws(was, new', 0);
    } else {
      SumChanges(k, shards, mask, i, shard, j, n - 1);
      var d := Xor(shards[i][j], shard[j]);
      var e := if k == 0 then d else Mul(i + 1, d);
      XorLaws(p, e, was);
      XorLaws(p, was, e);
      XorLaws(e, was, 0);
    }
  }

  /**
   * In whatever shards one is exchanged for another, each byte of the plain parity changes by the
   * difference of the two, and of the weighted parity by i + 1 times that difference.
   */
  lemma ParityChanges(k: nat, shards: seq<Shard>, size: nat, i: nat, shard: Shard, j: nat)
    requires Rectangular(shards, size) && i < |shards| && i < 255 && |shard| == size && j < size
    ensures
      var d := Xor(shards[i][j], shard[j]);
      Parity(k, shards[i := shard], size)[j] == Xor(Parity(k, shards, size)[j], if k == 0 then d else Mul(i + 1, d))
  {
    hide Xor, Mul, Sum;
    SumChanges(k, shards, Everything(|shards|), i, shard, j, |shards|);
  }

  lemma {:induction false} ZeroSum(k: nat, shards: seq<Shard>, mask: seq<bool>, j: nat, n: nat)
    requires n <= |shards| == |mask| && n < 256 && forall i | 0 <= i < n :: j < |shards[i]| && shards[i][j] == 0
    ensures Sum(k, shards, mask, j, n) == 0
    decreases n
  {
    hide Xor, Mul;
    if n > 0 {
      ZeroSum(k, shards, mask, j, n - 1);
      MulUnit(n);
      XorLaws(0, 0, 0);
    }
  }

  /** The parities of shards of zeros are zeros; with the changes above this says what all parities are. */
  lemma ParityOfZeros(k: nat, shards: seq<Shard>, size: nat)
    requires |shards| < 256 && forall i | 0 <= i < |shards| :: shards[i] == seq(size, _ => 0)
    ensures Parity(k, shards, size) == seq(size, _ => 0)
  {
    hide Sum;
    forall j | 0 <= j < size ensures Parity(k, shards, size)[j] == 0 {
      ZeroSum(k, shards, Everything(|shards|), j, |shards|);
    }
  }

  /** What the absent shards contribute, as a function of their list. */
  function SumOver(k: nat, shards: seq<Shard>, list: seq<nat>, j: nat): byte
    requires forall i | 0 <= i < |list| :: list[i] < |shards| && j < |shards[list[i]]|
  {
    if list == [] then 0
    else
      var i := list[|list| - 1];
      Xor(SumOver(k, shards, list[..|list| - 1], j), Term(k, i, shards[i][j]))
  }

  lemma {:induction false} SumMissing(k: nat, shards: seq<Shard>, present: seq<bool>, j: nat, n: nat)
    requires n <= |shards| == |present|
    requires forall i | 0 <= i < |shards| :: j < |shards[i]|
    ensures Sum(k, shards, Negate(present), j, n) == SumOver(k, shards, Missing(present, n), j)
    decreases n
  {
    hide Xor, Term;
    if n != 0 {
      SumMissing(k, shards, present, j, n - 1);
      var m := Missing(present, n - 1);
      assert (m + [n - 1])[..|m|] == m;
    }
  }

  /** A residue is exactly the contribution of the absent shards. */
  lemma ResidueIsMissing(k: nat, damaged: seq<Shard>, original: seq<Shard>, present: seq<bool>, parity: Shard,
      size: nat, j: nat)
    requires |damaged| == |original| == |present| && j < size
    requires Rectangular(damaged, size) && Rectangular(original, size)
    requires forall i | 0 <= i < |present| && present[i] :: damaged[i] == original[i]
    requires parity == Parity(k, original, size)
    ensures Residue(k, damaged, present, parity, j) == SumOver(k, original, Missing(present, |present|), j)
  {
    hide Xor, Term;
    var n := |original|;
    SumAgrees(k, damaged, original, present, j, n);
    SumSplits(k, original, present, j, n);
    SumMissing(k, original, present, j, n);
    var p, q := Sum(k, original, present, j, n), Sum(k, original, Negate(present), j, n);
    XorLaws(Xor(p, q), p, q);
    XorLaws(p, q, 0);
  }

  lemma OneMissing(shards: seq<Shard>, a: nat, j: nat)
    requires a < |shards| && j < |shards[a]|
    ensures SumOver(0, shards, [a], j) == shards[a][j]
  {
    XorLaws(shards[a][j], 0, 0);
    assert SumOver(0, shards, [], j) == 0;
  }

  lemma TwoMissing(k: nat, shards: seq<Shard>, a: nat, b: nat, j: nat)
    requires a < |shards| && b < |shards| && j < |shards[a]| && j < |shards[b]|
    ensures SumOver(k, shards, [a, b], j) == Xor(Term(k, a, shards[a][j]), Term(k, b, shards[b][j]))
  {
    hide Xor, Term;
    XorLaws(Term(k, a, shards[a][j]), 0, 0);
    assert [a, b][..1] == [a];
    assert SumOver(k, shards, [], j) == 0;
    assert SumOver(k, shards, [a], j) == Term(k, a, shards[a][j]);
  }

  /** Two unknown bytes x and y are determined by x + y and ca*x + cb*y, when ca and cb differ. */
  lemma SolveTwo(ca: byte, cb: byte, x: byte, y: byte)
    requires ca != cb
    ensures Xor(ca, cb) != 0
    ensures Div(Xor(Xor(Mul(ca, x), Mul(cb, y)), Mul(cb, Xor(x, y))), Xor(ca, cb)) == x
    ensures Xor(Xor(x, y), x) == y
  {
    hide Mul, Xor, Div, PolyAdd;
    var d := Xor(ca, cb);
    XorLaws(ca, cb, 0);
    XorLaws(ca, ca, 0);
    MulDistributes(x, y, cb);
    MulDistributes(ca, cb, x);
    var p, q, r := Mul(ca, x), Mul(cb, y), Mul(cb, x);
    // (p + q) + (r + q) == p + r
    XorLaws(r, q, 0);
    XorLaws(p, q, Xor(q, r));
    XorLaws(q, r, 0);
    MulThenDiv(x, d);
    XorLaws(x, y, x);
    XorLaws(x, Xor(y, x), 0);
    XorLaws(y, x, 0);
  }

  // ---------- Encoding and recovery ----------

  /** The shards behind a table of addresses. */
  function ShardsAt(mem: seq<byte>, data: seq<nat>, size: nat): (shards: seq<Shard>)
    requires forall i | 0 <= i < |data| :: data[i] + size <= |mem|
    ensures |shards| == |data|
    ensures forall i | 0 <= i < |data| :: shards[i] == mem[data[i]..data[i] + size]
  {
    seq(|data|, i requires 0 <= i < |data| => mem[data[i]..data[i] + size])
  }

  method AddShard(mem: array<byte>, from: nat, coefficient: byte, size: nat, p0: array<byte>, p1: array<byte>)
    requires from + size <= mem.Length && size <= p0.Length && size <= p1.Length
    requires p0 != p1 && p0 != mem && p1 != mem
    modifies p0, p1
    ensures forall j | 0 <= j < size ::
      p0[j] == Xor(old(p0[j]), mem[from + j]) && p1[j] == Xor(old(p1[j]), Mul(coefficient, mem[from + j]))
    ensures p0[size..] == old(p0[size..]) && p1[size..] == old(p1[size..])
  {
    hide *;
    for at := 0 to size
      invariant forall j | 0 <= j < at ::
        p0[j] == Xor(old(p0[j]), mem[from + j]) && p1[j] == Xor(old(p1[j]), Mul(coefficient, mem[from + j]))
      invariant forall j | at <= j < p0.Length :: p0[j] == old(p0[j])
      invariant forall j | at <= j < p1.Length :: p1[j] == old(p1[j])
    {
      hide *;
      p0[at] := Xor(p0[at], mem[from + at]);
      var product := GfMul(coefficient, mem[from + at]);
      p1[at] := Xor(p1[at], product);
    }
  }

  /** p holds parity k of the first n shards. */
  ghost predicate Accumulated(k: nat, shards: seq<Shard>, p: Shard, n: nat)
    requires n <= |shards| && Rectangular(shards, |p|)
  {
    forall j | 0 <= j < |p| :: p[j] == Sum(k, shards, Everything(|shards|), j, n)
  }

  lemma AccumulateShard(k: nat, shards: seq<Shard>, p: Shard, q: Shard, n: nat)
    requires n < |shards| && Rectangular(shards, |p|) && |q| == |p|
    requires Accumulated(k, shards, p, n)
    requires forall j | 0 <= j < |p| :: q[j] == Xor(p[j], Term(k, n, shards[n][j]))
    ensures Accumulated(k, shards, q, n + 1)
  {
    hide Xor, Mul, Term;
  }

  /** stearlight_fec_encode: both parities of the shards at the given addresses. */
  method EncodeParity(mem: array<byte>, data: seq<nat>, size: nat, p0: array<byte>, p1: array<byte>)
    requires forall i | 0 <= i < |data| :: data[i] + size <= mem.Length
    requires size <= p0.Length && size <= p1.Length
    requires p0 != p1 && p0 != mem && p1 != mem
    modifies p0, p1
    ensures |data| == 0 ==> p0[..] == old(p0[..]) && p1[..] == old(p1[..])
    ensures |data| > 0 ==> p0[..size] == Parity(0, ShardsAt(mem[..], data, size), size)
    ensures |data| > 0 ==> p1[..size] == Parity(1, ShardsAt(mem[..], data, size), size)
    ensures p0[size..] == old(p0[size..]) && p1[size..] == old(p1[size..])
  {
    hide Xor, Mul, Sum, Accumulated;
    if |data| == 0 { return; }
    ghost var shards := ShardsAt(mem[..], data, size);
    for byte := 0 to size
      invariant forall j | 0 <= j < byte :: p0[j] == 0 && p1[j] == 0
      invariant p0[size..] == old(p0[size..]) && p1[size..] == old(p1[size..])
    {
      p0[byte], p1[byte] := 0, 0;
    }
    AccumulateNothing(0, shards, p0[..size]);
    AccumulateNothing(1, shards, p1[..size]);
    for shard := 0 to |data|
      invariant Accumulated(0, shards, p0[..size], shard) && Accumulated(1, shards, p1[..size], shard)
      invariant p0[size..] == old(p0[size..]) && p1[size..] == old(p1[size..])
    {
      hide Xor, Mul, Sum, Accumulated;
      ghost var q0, q1 := p0[..size], p1[..size];
      AddShard(mem, data[shard], (shard + 1) % 256, size, p0, p1);
      AccumulateBoth(mem[..], data, size, shard, q0, q1, p0[..size], p1[..size]);
    }
    AccumulatedAll(0, shards, p0[..size]);
    AccumulatedAll(1, shards, p1[..size]);
  }

  lemma AccumulatedAll(k: nat, shards: seq<Shard>, p: Shard)
    requires Rectangular(shards, |p|) && Accumulated(k, shards, p, |shards|)
    ensures p == Parity(k, shards, |p|)
  {
    hide Sum;
  }

  lemma AccumulateBoth(memory: seq<byte>, data: seq<nat>, size: nat, n: nat, q0: Shard, q1: Shard, p0: Shard, p1: Shard)
    requires (forall i | 0 <= i < |data| :: data[i] + size <= |memory|) && n < |data|
    requires |q0| == |q1| == |p0| == |p1| == size
    requires
      var shards := ShardsAt(memory, data, size);
      Accumulated(0, shards, q0, n) && Accumulated(1, shards, q1, n)
    requires forall j | 0 <= j < size ::
      p0[j] == Xor(q0[j], memory[data[n] + j]) && p1[j] == Xor(q1[j], Mul((n + 1) % 256, memory[data[n] + j]))
    ensures
      var shards := ShardsAt(memory, data, size);
      Accumulated(0, shards, p0, n + 1) && Accumulated(1, shards, p1, n + 1)
  {
    hide Xor, Mul, Sum, Accumulated;
    var shards := ShardsAt(memory, data, size);
    assert forall j | 0 <= j < size :: shards[n][j] == memory[data[n] + j];
    AccumulateShard(0, shards, q0, p0, n);
    AccumulateShard(1, shards, q1, p1, n);
  }

  lemma AccumulateNothing(k: nat, shards: seq<Shard>, p: Shard)
    requires Rectangular(shards, |p|)
    requires forall j | 0 <= j < |p| :: p[j] == 0
    ensures Accumulated(k, shards, p, 0)
  {}

  /** The outcome of recovery: None for the code's -1, otherwise every shard. */
  function Recover(shards: seq<Shard>, present: seq<bool>, size: nat, parity0: Option<Shard>, parity1: Option<Shard>)
    : (result: Option<seq<Shard>>)
    requires |present| == |shards| && forall i | 0 <= i < |shards| :: |shards[i]| == size
    requires parity0.Some? ==> |parity0.value| == size
    requires parity1.Some? ==> |parity1.value| == size
    ensures result.Some? ==> |result.value| == |shards| && forall i | 0 <= i < |shards| :: |result.value[i]| == size
  {
    var missing := Missing(present, |present|);
    if |shards| == 0 || |shards| > DATA_SHARDS || !Enough(|missing|, parity0.Some?, parity1.Some?) then None
    else if missing == [] then Some(shards)
    else if |missing| == 1 then
      Some(shards[missing[0] := RepairOne(shards, present, size, parity0.value)])
    else
      var a := RepairFirst(shards, present, size, parity0.value, parity1.value, missing[0], missing[1]);
      Some(shards[missing[0] := a][missing[1] := RepairSecond(shards, present, size, parity0.value, a)])
  }

  function RepairOne(shards: seq<Shard>, present: seq<bool>, size: nat, parity0: Shard): (a: Shard)
    requires |present| == |shards| && |parity0| == size && forall i | 0 <= i < |shards| :: |shards[i]| == size
    ensures |a| == size
  {
    seq(size, j requires 0 <= j < size => Residue(0, shards, present, parity0, j))
  }

  function RepairFirst(shards: seq<Shard>, present: seq<bool>, size: nat, parity0: Shard, parity1: Shard, a: nat,
      b: nat)
    : (s: Shard)
    requires |present| == |shards| && forall i | 0 <= i < |shards| :: |shards[i]| == size
    requires |parity0| == |parity1| == size && a < DATA_SHARDS && b < DATA_SHARDS
    ensures |s| == size
  {
    seq(size, j requires 0 <= j < size =>
      SolveFirst(a, b, Residue(0, shards, present, parity0, j), Residue(1, shards, present, parity1, j)))
  }

  function RepairSecond(shards: seq<Shard>, present: seq<bool>, size: nat, parity0: Shard, first: Shard): (s: Shard)
    requires |present| == |shards| && forall i | 0 <= i < |shards| :: |shards[i]| == size
    requires |parity0| == |first| == size
    ensures |s| == size
  {
    seq(size, j requires 0 <= j < size => Xor(Residue(0, shards, present, parity0, j), first[j]))
  }

  /**
   * Damaged is the original with some shards lost, and each parity that is held
   * is the encoder's.
   */
  ghost predicate Erasure(damaged: seq<Shard>, original: seq<Shard>, present: seq<bool>, size: nat,
                          parity0: Option<Shard>, parity1: Option<Shard>)
  {
    && |damaged| == |original| == |present|
    && Rectangular(damaged, size) && Rectangular(original, size)
    && (forall i | 0 <= i < |present| && present[i] :: damaged[i] == original[i])
    && (parity0.Some? ==> parity0.value == Parity(0, original, size))
    && (parity1.Some? ==> parity1.value == Parity(1, original, size))
  }

  /** Exactly the patterns with enough parity are recovered, and then every shard comes back. */
  lemma ExactRecovery(damaged: seq<Shard>, original: seq<Shard>, present: seq<bool>, size: nat,
                      parity0: Option<Shard>, parity1: Option<Shard>)
    requires Erasure(damaged, original, present, size, parity0, parity1)
    requires 0 < |original| <= DATA_SHARDS
    ensures
      var lost := |Missing(present, |present|)|;
      var repairs := lost == 0 || (lost == 1 && parity0.Some?) || (lost == 2 && parity0.Some? && parity1.Some?);
      Recover(damaged, present, size, parity0, parity1) == if repairs then Some(original) else None
  {
    hide Xor, Mul, Sum, Residue, SolveFirst;
    var missing := Missing(present, |present|);
    if missing == [] {
      OnlyMissing(damaged, original, present, []);
    } else if Enough(|missing|, parity0.Some?, parity1.Some?) && |missing| == 1 {
      RepairOneRight(damaged, original, present, size, parity0, parity1);
      OnlyMissing(damaged, original, present, [missing[0]]);
    } else if Enough(|missing|, parity0.Some?, parity1.Some?) {
      RepairTwoRight(damaged, original, present, size, parity0, parity1);
      OnlyMissing(damaged, original, present, [missing[0], missing[1]]);
    }
  }

  /** With the absent shards put back, the damaged shards are the original ones. */
  lemma OnlyMissing(damaged: seq<Shard>, original: seq<Shard>, present: seq<bool>, list: seq<nat>)
    requires |damaged| == |original| == |present| && Missing(present, |present|) == list
    requires forall i | 0 <= i < |present| && present[i] :: damaged[i] == original[i]
    ensures list == [] ==> damaged == original
    ensures |list| == 1 ==> damaged[list[0] := original[list[0]]] == original
    ensures |list| == 2 ==> damaged[list[0] := original[list[0]]][list[1] := original[list[1]]] == original
  {
    hide Missing;
    forall i | 0 <= i < |present| && !present[i] ensures i in list { var k := MissingHas(present, |present|, i); }
  }

  /** Every absent shard is in the list. */
  lemma {:induction false} MissingHas(present: seq<bool>, n: nat, i: nat) returns (k: nat)
    requires i < n <= |present| && !present[i]
    ensures k < |Missing(present, n)| && Missing(present, n)[k] == i
    decreases n
  {
    if i == n - 1 {
      k := |Missing(present, n - 1)|;
    } else {
      k := MissingHas(present, n - 1, i);
    }
  }

  lemma RepairOneRight(damaged: seq<Shard>, original: seq<Shard>, present: seq<bool>, size: nat,
                       parity0: Option<Shard>, parity1: Option<Shard>)
    requires Erasure(damaged, original, present, size, parity0, parity1) && parity0.Some?
    requires |Missing(present, |present|)| == 1
    ensures RepairOne(damaged, present, size, parity0.value) == original[Missing(present, |present|)[0]]
  {
    hide Xor, Mul, Sum, Residue, Missing, Parity;
    var a := Missing(present, |present|)[0];
    assert Missing(present, |present|) == [a] && a < |present|;
    var repaired := RepairOne(damaged, present, size, parity0.value);
    forall j | 0 <= j < size ensures repaired[j] == original[a][j] {
      RepairedByte(damaged, original, present, size, parity0.value, a, j);
    }
    assert repaired == original[a];
  }

  lemma RepairedByte(damaged: seq<Shard>, original: seq<Shard>, present: seq<bool>, size: nat, parity0: Shard,
                     a: nat, j: nat)
    requires Erasure(damaged, original, present, size, Some(parity0), None) && j < size
    requires Missing(present, |present|) == [a] && a < |original|
    ensures Residue(0, damaged, present, parity0, j) == original[a][j]
  {
    hide Xor, Mul, Sum, Residue, Missing, Parity;
    ResidueIsMissing(0, damaged, original, present, parity0, size, j);
    OneMissing(original, a, j);
  }

  lemma RepairTwoRight(damaged: seq<Shard>, original: seq<Shard>, present: seq<bool>, size: nat,
                       parity0: Option<Shard>, parity1: Option<Shard>)
    requires Erasure(damaged, original, present, size, parity0, parity1) && parity0.Some? && parity1.Some?
    requires |original| <= DATA_SHARDS && |Missing(present, |present|)| == 2
    ensures
      var missing := Missing(present, |present|);
      var first := RepairFirst(damaged, present, size, parity0.value, parity1.value, missing[0], missing[1]);
      first == original[missing[0]] &&
      RepairSecond(damaged, present, size, parity0.value, first) == original[missing[1]]
  {
    hide Xor, Mul, Sum, Residue, Div, Missing, Parity, SolveFirst;
    var missing := Missing(present, |present|);
    var a, b := missing[0], missing[1];
    assert missing == [a, b];
    var first := RepairFirst(damaged, present, size, parity0.value, parity1.value, a, b);
    forall j | 0 <= j < size ensures first[j] == original[a][j] {
      SolvedBytes(damaged, original, present, size, parity0.value, parity1.value, a, b, j);
    }
    assert first == original[a];
    var second := RepairSecond(damaged, present, size, parity0.value, first);
    forall j | 0 <= j < size ensures second[j] == original[b][j] {
      SolvedBytes(damaged, original, present, size, parity0.value, parity1.value, a, b, j);
    }
    assert second == original[b];
  }

  lemma SolvedBytes(damaged: seq<Shard>, original: seq<Shard>, present: seq<bool>, size: nat,
                    parity0: Shard, parity1: Shard, a: nat, b: nat, j: nat)
    requires Erasure(damaged, original, present, size, Some(parity0), Some(parity1)) && j < size
    requires |original| <= DATA_SHARDS && Missing(present, |present|) == [a, b]
    ensures a < b < |original| && j < |original[a]| && j < |original[b]|
    ensures SolveFirst(a, b, Residue(0, damaged, present, parity0, j), Residue(1, damaged, present, parity1, j))
         == original[a][j]
    ensures Xor(Residue(0, damaged, present, parity0, j), original[a][j]) == original[b][j]
  {
    hide Xor, Mul, Sum, Residue, Div, Missing, Parity;
    var missing := Missing(present, |present|);
    assert missing[0] == a && missing[1] == b;
    ResidueIsMissing(0, damaged, original, present, parity0, size, j);
    ResidueIsMissing(1, damaged, original, present, parity1, size, j);
    TwoMissing(0, original, a, b, j);
    TwoMissing(1, original, a, b, j);
    SolveTwo(a + 1, b + 1, original[a][j], original[b][j]);
  }

  // ---------- stearlight_fec_recover ----------

  ghost function Held(have: bool, parity: array?<byte>, size: nat): Option<Shard>
    requires parity != null ==> size <= parity.Length
    reads parity
  {
    if have && parity != null then Some(parity[..size]) else None
  }

  ghost predicate Table(data: seq<nat>, size: nat, length: nat) {
    && (forall i | 0 <= i < |data| :: data[i] + size <= length)
    && (forall i, k | 0 <= i < k < |data| :: data[i] + size <= data[k] || data[k] + size <= data[i])
  }

  /** Everything but the shards that the mask leaves out is unchanged. */
  ghost predicate OnlyRepairs(before: seq<byte>, after: seq<byte>, data: seq<nat>, present: seq<bool>, size: nat)
    requires |present| == |data| && |after| == |before|
  {
    forall p | 0 <= p < |before| ::
      (forall i | 0 <= i < |data| && !present[i] :: !(data[i] <= p < data[i] + size)) ==> after[p] == before[p]
  }

  /** The residues of both parities at one byte. */
  method Residues(mem: array<byte>, data: seq<nat>, present: seq<bool>, size: nat, j: nat,
                  p0: array<byte>, p1: array?<byte>, have1: bool)
    returns (sum0: byte, sum1: byte)
    requires |present| == |data| && Table(data, size, mem.Length) && j < size <= p0.Length
    requires have1 ==> p1 != null && size <= p1.Length
    ensures sum0 == Residue(0, ShardsAt(mem[..], data, size), present, p0[..size], j)
    ensures have1 ==> sum1 == Residue(1, ShardsAt(mem[..], data, size), present, p1[..size], j)
  {
    hide Xor, Mul;
    ghost var shards := ShardsAt(mem[..], data, size);
    sum0 := p0[j];
    sum1 := if have1 then p1[j] else 0;
    XorLaws(sum0, 0, 0);
    XorLaws(sum1, 0, 0);
    for i := 0 to |data|
      invariant sum0 == Xor(p0[j], Sum(0, shards, present, j, i))
      invariant have1 ==> sum1 == Xor(p1[j], Sum(1, shards, present, j, i))
    {
      hide Xor, Mul;
      if present[i] {
        var v := mem[data[i] + j];
        assert v == shards[i][j];
        XorLaws(p0[j], Sum(0, shards, present, j, i), v);
        sum0 := Xor(sum0, v);
        if have1 {
          var product := GfMul((i + 1) % 256, v);
          XorLaws(p1[j], Sum(1, shards, present, j, i), product);
          sum1 := Xor(sum1, product);
        }
      }
    }
  }

  lemma {:induction false} MissingPrefix(present: seq<bool>, m: nat, n: nat)
    requires m <= n <= |present|
    ensures Missing(present, m) <= Missing(present, n)
    decreases n
  {
    if m < n { MissingPrefix(present, m, n - 1); }
  }

  /** Repairs do not disturb what the residues are computed from. */
  lemma ResiduesStable(before: seq<byte>, after: seq<byte>, data: seq<nat>, present: seq<bool>, size: nat)
    requires |present| == |data| && |after| == |before| && Table(data, size, |before|)
    requires OnlyRepairs(before, after, data, present, size)
    ensures forall i | 0 <= i < |data| && present[i] ::
      ShardsAt(after, data, size)[i] == ShardsAt(before, data, size)[i]
    ensures forall k: nat, parity: Shard, j: nat | j < |parity| && j < size ::
      Residue(k, ShardsAt(after, data, size), present, parity, j) ==
      Residue(k, ShardsAt(before, data, size), present, parity, j)
  {
    hide Xor;
    var s, t := ShardsAt(before, data, size), ShardsAt(after, data, size);
    forall i | 0 <= i < |data| && present[i] ensures t[i] == s[i] {
      forall j | 0 <= j < size ensures t[i][j] == s[i][j] {
        assert forall k | 0 <= k < |data| && !present[k] :: !(data[k] <= data[i] + j < data[k] + size);
      }
    }
    forall k: nat, parity: Shard, j: nat | j < |parity| && j < size
      ensures Residue(k, t, present, parity, j) == Residue(k, s, present, parity, j)
    {
      SumAgrees(k, t, s, present, j, |s|);
    }
  }

  /** The first two absent shards, or -1 when there are more than two. */
  method FindMissing(present: seq<bool>) returns (count: int, a: nat, b: nat)
    ensures count == (if |Missing(present, |present|)| > 2 then -1 else |Missing(present, |present|)|)
    ensures count >= 1 ==> a == Missing(present, |present|)[0]
    ensures count == 2 ==> b == Missing(present, |present|)[1]
  {
    count, a, b := 0, 0, 0;
    for i := 0 to |present|
      invariant 0 <= count == |Missing(present, i)| <= 2
      invariant count >= 1 ==> a == Missing(present, i)[0]
      invariant count == 2 ==> b == Missing(present, i)[1]
    {
      if !present[i] {
        if count == 2 {
          MissingPrefix(present, i + 1, |present|);
          return -1, a, b;
        }
        if count == 0 { a := i; } else { b := i; }
        count := count + 1;
      }
    }
  }

  /** The first n bytes of the one or two repaired shards are in place and nothing else has changed. */
  ghost predicate Repaired(before: seq<byte>, after: seq<byte>, pa: nat, pb: nat, two: bool, n: nat,
      first: Shard, second: Shard)
  {
    && |after| == |before| && n <= |first| == |second|
    && pa + |first| <= |before| && (two ==> pb + |first| <= |before|)
    && (forall k | pa <= k < pa + n :: after[k] == first[k - pa])
    && (two ==> forall k | pb <= k < pb + n :: after[k] == second[k - pb])
    && (forall k | 0 <= k < |before| && !(pa <= k < pa + n) && !(two && pb <= k < pb + n) :: after[k] == before[k])
  }

  lemma RepairedGrows(before: seq<byte>, was: seq<byte>, after: seq<byte>, pa: nat, pb: nat, two: bool, j: nat,
                      first: Shard, second: Shard)
    requires Repaired(before, was, pa, pb, two, j, first, second) && j < |first| && |after| == |was|
    requires two ==> pa + |first| <= pb || pb + |first| <= pa
    requires after[pa + j] == first[j] && (two ==> after[pb + j] == second[j])
    requires forall k | 0 <= k < |was| && k != pa + j && !(two && k == pb + j) :: after[k] == was[k]
    ensures Repaired(before, after, pa, pb, two, j + 1, first, second)
  {}

  lemma RepairedIsLocal(before: seq<byte>, after: seq<byte>, data: seq<nat>, present: seq<bool>, size: nat,
                        a: nat, b: nat, two: bool, n: nat, first: Shard, second: Shard)
    requires |present| == |data| && Table(data, size, |before|) && |first| == size
    requires a < |data| && !present[a] && (two ==> b < |data| && !present[b])
    requires b < |data| && Repaired(before, after, data[a], data[b], two, n, first, second)
    ensures OnlyRepairs(before, after, data, present, size)
  {}

  lemma RepairedShards(before: seq<byte>, after: seq<byte>, data: seq<nat>, size: nat,
                       a: nat, b: nat, two: bool, first: Shard, second: Shard)
    requires Table(data, size, |before|) && |first| == size
    requires a < |data| && b < |data| && (two ==> a != b)
    requires Repaired(before, after, data[a], data[b], two, size, first, second)
    ensures
      var s := ShardsAt(before, data, size)[a := first];
      ShardsAt(after, data, size) == if two then s[b := second] else s
  {
    var s := ShardsAt(before, data, size)[a := first];
    var t := if two then s[b := second] else s;
    forall i | 0 <= i < |data| ensures ShardsAt(after, data, size)[i] == t[i] {
      forall j | 0 <= j < size ensures after[data[i]..data[i] + size][j] == t[i][j] {
      }
    }
  }

  /** The byte loop of stearlight_fec_recover, for one absent shard a or for two, a and b. */
  method RepairBytes(mem: array<byte>, data: seq<nat>, present: seq<bool>, size: nat,
                     p0: array<byte>, p1: array?<byte>, have1: bool, a: nat, b: nat, two: bool,
                     ghost first: Shard, ghost second: Shard)
    requires |present| == |data| && Table(data, size, mem.Length)
    requires p0 != mem && size <= p0.Length && p1 != mem
    requires have1 ==> p1 != null && size <= p1.Length
    requires a < |data| && !present[a] && b < |data| && a < DATA_SHARDS && b < DATA_SHARDS
    requires two ==> a != b && !present[b] && have1
    requires
      var shards := ShardsAt(mem[..], data, size);
      && first == (if two then RepairFirst(shards, present, size, p0[..size], p1[..size], a, b)
                   else RepairOne(shards, present, size, p0[..size]))
      && second == RepairSecond(shards, present, size, p0[..size], first)
    modifies mem
    ensures Repaired(old(mem[..]), mem[..], data[a], data[b], two, size, first, second)
  {
    hide Xor, Mul, Div, Residue, Sum, ShardsAt, OnlyRepairs;
    ghost var before := mem[..];
    assert two ==> data[a] + size <= data[b] || data[b] + size <= data[a];
    for j := 0 to size
      invariant Repaired(before, mem[..], data[a], data[b], two, j, first, second)
    {
      hide Xor, Mul, Div, Residue, Sum, ShardsAt, OnlyRepairs, Repaired;
      ghost var was := mem[..];
      RepairedLength(before, was, data[a], data[b], two, j, first, second);
      RepairedIsLocal(before, was, data, present, size, a, b, two, j, first, second);
      ResiduesStable(before, was, data, present, size);
      var sum0, sum1 := Residues(mem, data, present, size, j, p0, p1, have1);
      if !two {
        mem[data[a] + j] := sum0;
      } else {
        var product := GfMul(b + 1, sum0);
        var quotient := GfDiv(Xor(sum1, product), Xor(a + 1, b + 1));
        mem[data[a] + j] := quotient;
        mem[data[b] + j] := Xor(sum0, quotient);
      }
      RepairedGrows(before, was, mem[..], data[a], data[b], two, j, first, second);
    }
  }

  lemma RepairedLength(before: seq<byte>, after: seq<byte>, pa: nat, pb: nat, two: bool, n: nat, first: Shard,
      second: Shard)
    requires Repaired(before, after, pa, pb, two, n, first, second)
    ensures |after| == |before| && n <= |first| == |second|
    ensures pa + |first| <= |before| && (two ==> pb + |first| <= |before|)
  {}

  /** stearlight_fec_recover: repairs the absent shards where they lie, or fails without touching them. */
  method RecoverInPlace(mem: array<byte>, data: seq<nat>, present: seq<bool>, size: nat,
                        p0: array?<byte>, p1: array?<byte>, have0: bool, have1: bool)
    returns (code: int)
    requires |present| == |data| && Table(data, size, mem.Length)
    requires p0 != null ==> p0 != mem && size <= p0.Length
    requires p1 != null ==> p1 != mem && size <= p1.Length
    requires have0 && p0 != null && have1 && |Missing(present, |present|)| == 1 ==> p1 != null
    modifies mem
    ensures
      var result := Recover(old(ShardsAt(mem[..], data, size)), present, size, old(Held(have0, p0, size)),
        old(Held(have1, p1, size)));
      if result.None? then code == -1 && mem[..] == old(mem[..])
      else code == |Missing(present, |present|)| && ShardsAt(mem[..], data, size) == result.value
    ensures OnlyRepairs(old(mem[..]), mem[..], data, present, size)
  {
    hide Xor, Mul, Div, Residue, Sum, Missing, RepairOne, RepairFirst, RepairSecond, Repaired, ShardsAt;
    if |data| == 0 || |data| > DATA_SHARDS { return -1; }
    var count, a, b := FindMissing(present);
    if count == -1 { return -1; }
    if count == 0 { return 0; }
    if !have0 || p0 == null || (count == 2 && (!have1 || p1 == null)) { return -1; }
    ghost var shards := ShardsAt(mem[..], data, size);
    ghost var first := if count == 1 then RepairOne(shards, present, size, p0[..size])
                       else RepairFirst(shards, present, size, p0[..size], p1[..size], a, b);
    ghost var second := RepairSecond(shards, present, size, p0[..size], first);
    if count == 1 { b := a; }
    ghost var before := mem[..];
    RepairBytes(mem, data, present, size, p0, p1, have1, a, b, count == 2, first, second);
    RepairedIsLocal(before, mem[..], data, present, size, a, b, count == 2, size, first, second);
    RepairedShards(before, mem[..], data, size, a, b, count == 2, first, second);
    code := count;
  }
}
