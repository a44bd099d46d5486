/** Small generic building blocks shared by the acquisition model: an Option
    type, integer helpers, Python-style slicing, flattening, fixed-size
    batching, dictionary building where the last write wins, and
    separator-based split/join of strings. */
module Prelude {

  datatype Option<+T> = None | Some(value: T) {
    /** The `dict.get(key, default)` / `x or default` idiom. */
    function GetOr(default: T): T {
      match this
      case Some(v) => v
      case None => default
    }
  }

  function Min(a: int, b: int): int { if a <= b then a else b }

  function Max(a: int, b: int): int { if a <= b then b else a }

  /** ceil(n / k) for a positive k. */
  function CeilDiv(n: int, k: int): int
    requires k > 0
  {
    (n + k - 1) / k
  }

  /** Python's `s[:n]`, which counts a negative `n` from the end. */
  function PyPrefix<T>(s: seq<T>, n: int): (r: seq<T>)
    ensures |r| <= |s| && r == s[..|r|]
    ensures n >= 0 ==> |r| == Min(n, |s|)
    ensures n < 0 ==> |r| == Max(0, |s| + n)
  {
    if n >= 0 then s[..Min(n, |s|)] else s[..Max(0, |s| + n)]
  }

  // ---------------------------------------------------------------------
  // Flattening

  function Flatten<T>(ss: seq<seq<T>>): seq<T> {
    if ss == [] then [] else Flatten(ss[..|ss| - 1]) + ss[|ss| - 1]
  }

  lemma FlattenAppend<T>(ss: seq<seq<T>>, s: seq<T>)
    ensures Flatten(ss + [s]) == Flatten(ss) + s
  {
    assert (ss + [s])[..|ss|] == ss;
  }

  lemma {:induction false} FlattenConcat<T>(xs: seq<seq<T>>, ys: seq<seq<T>>)
    ensures Flatten(xs + ys) == Flatten(xs) + Flatten(ys)
    decreases |ys|
  {
    if ys == [] {
      assert xs + ys == xs;
    } else {
      var init, last := ys[..|ys| - 1], ys[|ys| - 1];
      assert ys == init + [last];
      assert xs + ys == (xs + init) + [last];
      FlattenAppend(xs + init, last);
      FlattenConcat(xs, init);
      FlattenAppend(init, last);
      assert Flatten(xs) + Flatten(init) + last == Flatten(xs) + (Flatten(init) + last);
    }
  }

  /** Every element of a part is an element of the flattened sequence. */
  lemma {:induction false} InFlatten<T>(ss: seq<seq<T>>, i: int, x: T)
    requires 0 <= i < |ss| && x in ss[i]
    ensures x in Flatten(ss)
    decreases |ss|
  {
    if i < |ss| - 1 {
      InFlatten(ss[..|ss| - 1], i, x);
    }
  }

  /** Everything in the flattening comes from one of the parts. */
  lemma {:induction false} InFlattenSome<T>(ss: seq<seq<T>>, x: T)
    requires x in Flatten(ss)
    ensures exists s :: s in ss && x in s
    decreases |ss|
  {
    var init, last := ss[..|ss| - 1], ss[|ss| - 1];
    if x in Flatten(init) {
      InFlattenSome(init, x);
      var s :| s in init && x in s;
      assert s in ss;
    } else {
      assert x in last;
    }
  }

  /** Concatenation of `f` applied to each element, in order: the results of
      one remote call per batch, gathered into one list. */
  function FlatMap<A, B>(f: A -> seq<B>, xs: seq<A>): seq<B> {
    if xs == [] then [] else FlatMap(f, xs[..|xs| - 1]) + f(xs[|xs| - 1])
  }

  /** What `FlatMap` gathers is exactly what `f` gives for some element. */
  lemma {:induction false} FlatMapMembers<A, B>(f: A -> seq<B>, xs: seq<A>)
    ensures forall y :: y in FlatMap(f, xs) ==> exists x :: x in xs && y in f(x)
    ensures forall x, y :: x in xs && y in f(x) ==> y in FlatMap(f, xs)
  {
    if xs != [] {
      var init := xs[..|xs| - 1];
      FlatMapMembers(f, init);
      assert xs == init + [xs[|xs| - 1]];
    }
  }

  lemma FlatMapAppend<A, B>(f: A -> seq<B>, xs: seq<A>, x: A)
    ensures FlatMap(f, xs + [x]) == FlatMap(f, xs) + f(x)
  {
    assert (xs + [x])[..|xs|] == xs;
  }

  /** `[f(x) for x in xs]`. */
  function MapSeq<A, B>(f: A -> B, xs: seq<A>): seq<B> {
    if xs == [] then [] else MapSeq(f, xs[..|xs| - 1]) + [f(xs[|xs| - 1])]
  }

  lemma MapSeqAppend<A, B>(f: A -> B, xs: seq<A>, x: A)
    ensures MapSeq(f, xs + [x]) == MapSeq(f, xs) + [f(x)]
  {
    assert (xs + [x])[..|xs|] == xs;
  }

  /** One result per element, in order. */
  lemma {:induction false} MapSeqSpec<A, B>(f: A -> B, xs: seq<A>)
    ensures |MapSeq(f, xs)| == |xs|
    ensures forall i :: 0 <= i < |xs| ==> MapSeq(f, xs)[i] == f(xs[i])
  {
    if xs != [] {
      var init := xs[..|xs| - 1];
      MapSeqSpec(f, init);
      assert forall i :: 0 <= i < |init| ==> init[i] == xs[i];
    }
  }

  /** `[f(x) for x in xs]` where `f` can raise (`None`): the whole list fails
      when one element does. */
  function MapAll<A, B>(f: A -> Option<B>, xs: seq<A>): Option<seq<B>> {
    if xs == [] then Some([])
    else
      var init := MapAll(f, xs[..|xs| - 1]);
      var last := f(xs[|xs| - 1]);
      if init.None? || last.None? then None else Some(init.value + [last.value])
  }

  lemma MapAllAppend<A, B>(f: A -> Option<B>, xs: seq<A>, x: A)
    ensures MapAll(f, xs + [x])
      == if MapAll(f, xs).None? || f(x).None? then None else Some(MapAll(f, xs).value + [f(x).value])
  {
    assert (xs + [x])[..|xs|] == xs;
  }

  /** Once a prefix fails, the whole list fails. */
  lemma {:induction false} MapAllFailsOn<A, B>(f: A -> Option<B>, xs: seq<A>, n: int)
    requires 0 <= n <= |xs| && MapAll(f, xs[..n]).None?
    ensures MapAll(f, xs).None?
    decreases |xs| - n
  {
    if n < |xs| {
      MapAllAppend(f, xs[..n], xs[n]);
      assert xs[..n + 1] == xs[..n] + [xs[n]];
      MapAllFailsOn(f, xs, n + 1);
    } else {
      assert xs[..n] == xs;
    }
  }

  /** The list is built exactly when no element fails, and then holds one
      result per element, in order. */
  lemma {:induction false} MapAllSpec<A, B>(f: A -> Option<B>, xs: seq<A>)
    ensures MapAll(f, xs).Some? <==> forall i :: 0 <= i < |xs| ==> f(xs[i]).Some?
    ensures MapAll(f, xs).Some? ==>
      |MapAll(f, xs).value| == |xs| && forall i :: 0 <= i < |xs| ==> Some(MapAll(f, xs).value[i]) == f(xs[i])
  {
    if xs != [] {
      var init := xs[..|xs| - 1];
      MapAllSpec(f, init);
      assert forall i :: 0 <= i < |init| ==> init[i] == xs[i];
    }
  }

  // ---------------------------------------------------------------------
  // Fixed-size batches: `[s[i:i+k] for i in range(0, len(s), k)]`

  function Chunks<T>(s: seq<T>, k: int): seq<seq<T>>
    requires k > 0
    decreases |s|
  {
    if s == [] then [] else [s[..Min(k, |s|)]] + Chunks(s[Min(k, |s|)..], k)
  }

  /** One step of the `for i in range(0, len(s), k)` loop. */
  lemma ChunksStep<T>(s: seq<T>, i: int, k: int)
    requires 0 <= i < |s| && k > 0
    ensures Chunks(s[i..], k) == [s[i..Min(i + k, |s|)]] + Chunks(s[Min(i + k, |s|)..], k)
  {
    var t := s[i..];
    assert t[..Min(k, |t|)] == s[i..Min(i + k, |s|)];
    assert t[Min(k, |t|)..] == s[Min(i + k, |s|)..];
  }

  /** The batches concatenate back to the input. */
  lemma {:induction false} ChunksFlatten<T>(s: seq<T>, k: int)
    requires k > 0
    ensures Flatten(Chunks(s, k)) == s
    decreases |s|
  {
    if s != [] {
      var n := Min(k, |s|);
      ChunksFlatten(s[n..], k);
      FlattenConcat([s[..n]], Chunks(s[n..], k));
      assert Flatten([s[..n]]) == s[..n] by {
        assert [s[..n]][..0] == [];
      }
      assert s[..n] + s[n..] == s;
    }
  }

  /** One step of the same loop, for a loop that collects the batches: the
      batches taken so far, followed by the batches of what is left, are all
      the batches. */
  lemma ChunksLoopStep<T>(s: seq<T>, i: int, k: int, done: seq<seq<T>>)
    requires 0 <= i < |s| && k > 0
    requires done + Chunks(s[i..], k) == Chunks(s, k)
    ensures (done + [s[i..Min(i + k, |s|)]]) + Chunks(s[Min(i + k, |s|)..], k) == Chunks(s, k)
  {
    ChunksStep(s, i, k);
  }

  /** Every batch holds between 1 and k elements; only the last may be short. */
  lemma {:induction false} ChunksSizes<T>(s: seq<T>, k: int)
    requires k > 0
    ensures forall i :: 0 <= i < |Chunks(s, k)| ==> 1 <= |Chunks(s, k)[i]| <= k
    ensures forall i :: 0 <= i < |Chunks(s, k)| - 1 ==> |Chunks(s, k)[i]| == k
    decreases |s|
  {
    if s != [] {
      ChunksSizes(s[Min(k, |s|)..], k);
    }
  }

  /** There are exactly ceil(|s| / k) batches. */
  lemma {:induction false} ChunksCount<T>(s: seq<T>, k: int)
    requires k > 0
    ensures |Chunks(s, k)| == CeilDiv(|s|, k)
    decreases |s|
  {
    if s == [] {
      DivUnique(k - 1, k, 0, k - 1);
    } else if |s| <= k {
      assert Chunks(s[|s|..], k) == [];
      DivUnique(|s| + k - 1, k, 1, |s| - 1);
    } else {
      ChunksCount(s[k..], k);
      assert Chunks(s, k) == [s[..k]] + Chunks(s[k..], k);
      DivStep(|s| - 1, k);
    }
  }

  lemma DivStep(a: int, k: int)
    requires a >= 0 && k > 0
    ensures (a + k) / k == a / k + 1
  {
    var q, r := a / k, a % k;
    assert a == q * k + r;
    assert a + k == (q + 1) * k + r;
    DivUnique(a + k, k, q + 1, r);
  }

  lemma DivUnique(x: int, k: int, q: int, r: int)
    requires k > 0 && 0 <= r < k && x == q * k + r
    ensures x / k == q
  {
    var q', r' := x / k, x % k;
    assert q' * k + r' == x;
    var d := q' - q;
    assert d * k == r - r';
    MulBound(d, k);
  }

  /** Fewer than `m` items after `n` steps of `k` means at most ceil(m / k)
      steps were taken, counting the one that follows. */
  lemma CeilDivAbove(n: int, k: int, m: int)
    requires n >= 0 && k > 0 && n * k < m
    ensures n + 1 <= CeilDiv(Max(m, 0), k)
  {
    var q, r := (m - 1) / k, (m - 1) % k;
    assert m - 1 == q * k + r;
    MulBound(n - q, k);
    assert (n - q) * k == n * k - q * k;
    DivStep(m - 1, k);
  }

  lemma MulBound(d: int, k: int)
    requires k > 0
    ensures d >= 1 ==> d * k >= k
    ensures d <= -1 ==> d * k <= -k
  {
  }

  predicate Distinct<T(==)>(s: seq<T>) {
    forall i, j :: 0 <= i < j < |s| ==> s[i] != s[j]
  }

  /** A subset is no larger than its superset. */
  lemma SubsetCard<T>(a: set<T>, b: set<T>)
    requires a <= b
    ensures |a| <= |b|
  {
    assert b == a + (b - a);
  }

  /** The elements of a list without repeats are as many as its length. */
  lemma {:induction false} DistinctCard<T>(s: seq<T>)
    requires Distinct(s)
    ensures |set x | x in s| == |s|
  {
    if s != [] {
      var init := s[..|s| - 1];
      DistinctCard(init);
      assert (set x | x in s) == (set x | x in init) + {s[|s| - 1]};
      assert s[|s| - 1] !in init;
    }
  }

  /** Batches of a list without repeats never share an element. */
  lemma {:induction false} DisjointParts<T>(ss: seq<seq<T>>)
    requires Distinct(Flatten(ss))
    ensures forall i, j, x :: 0 <= i < j < |ss| && x in ss[i] ==> x !in ss[j]
    decreases |ss|
  {
    if ss != [] {
      var init, last := ss[..|ss| - 1], ss[|ss| - 1];
      var flat := Flatten(init);
      assert Flatten(ss) == flat + last;
      assert Distinct(flat) by {
        forall a, b | 0 <= a < b < |flat| ensures flat[a] != flat[b] {
          assert flat[a] == Flatten(ss)[a] && flat[b] == Flatten(ss)[b];
        }
      }
      DisjointParts(init);
      forall i, j, x | 0 <= i < j < |ss| && x in ss[i] ensures x !in ss[j] {
        if j < |ss| - 1 {
          assert ss[i] == init[i] && ss[j] == init[j];
        } else {
          assert ss[i] == init[i];
          InFlatten(init, i, x);
          var a :| 0 <= a < |flat| && flat[a] == x;
          forall b | 0 <= b < |last| ensures last[b] != x {
            assert Flatten(ss)[|flat| + b] == last[b];
            assert Flatten(ss)[a] == flat[a];
          }
        }
      }
    }
  }

  // ---------------------------------------------------------------------
  // Building a dictionary in a loop: `for x in xs: d[key(x)] = val(x)`

  function AssocBy<T, K, V>(xs: seq<T>, key: T -> K, val: T -> V): map<K, V> {
    if xs == [] then map[] else AssocBy(xs[..|xs| - 1], key, val)[key(xs[|xs| - 1]) := val(xs[|xs| - 1])]
  }

  lemma AssocByAppend<T, K, V>(xs: seq<T>, x: T, key: T -> K, val: T -> V)
    ensures AssocBy(xs + [x], key, val) == AssocBy(xs, key, val)[key(x) := val(x)]
  {
    assert (xs + [x])[..|xs|] == xs;
  }

  /** One step of a loop that writes the elements of `ys` after those of `xs`. */
  lemma AssocByStep<T, K, V>(xs: seq<T>, ys: seq<T>, j: int, key: T -> K, val: T -> V)
    requires 0 <= j < |ys|
    ensures AssocBy(xs + ys[..j + 1], key, val) == AssocBy(xs + ys[..j], key, val)[key(ys[j]) := val(ys[j])]
  {
    assert xs + ys[..j + 1] == (xs + ys[..j]) + [ys[j]];
    AssocByAppend(xs + ys[..j], ys[j], key, val);
  }

  /** The keys are exactly the keys of the elements written. */
  lemma {:induction false} AssocByKeys<T, K, V>(xs: seq<T>, key: T -> K, val: T -> V)
    ensures forall k :: k in AssocBy(xs, key, val) ==> exists i :: 0 <= i < |xs| && key(xs[i]) == k
    ensures forall i :: 0 <= i < |xs| ==> key(xs[i]) in AssocBy(xs, key, val)
    decreases |xs|
  {
    if xs != [] {
      var init := xs[..|xs| - 1];
      AssocByKeys(init, key, val);
      forall k | exists i :: 0 <= i < |xs| && key(xs[i]) == k
        ensures k in AssocBy(xs, key, val)
      {
        var i :| 0 <= i < |xs| && key(xs[i]) == k;
        if i < |xs| - 1 {
          assert key(init[i]) == k;
        }
      }
      forall k | k in AssocBy(xs, key, val)
        ensures exists i :: 0 <= i < |xs| && key(xs[i]) == k
      {
        if k != key(xs[|xs| - 1]) {
          assert k in AssocBy(init, key, val);
          assert exists i :: 0 <= i < |init| && key(init[i]) == k;
          var i :| 0 <= i < |init| && key(init[i]) == k;
          assert xs[i] == init[i];
        }
      }
    }
  }

  /** The value kept for a key is the one of its last writer. */
  lemma {:induction false} AssocByLastWins<T, K, V>(xs: seq<T>, key: T -> K, val: T -> V, i: int)
    requires 0 <= i < |xs|
    requires forall j :: i < j < |xs| ==> key(xs[j]) != key(xs[i])
    ensures key(xs[i]) in AssocBy(xs, key, val)
    ensures AssocBy(xs, key, val)[key(xs[i])] == val(xs[i])
    decreases |xs|
  {
    if i < |xs| - 1 {
      var init := xs[..|xs| - 1];
      assert init[i] == xs[i];
      AssocByLastWins(init, key, val, i);
    }
  }

  // ---------------------------------------------------------------------
  // Python's `s.split(c)` and `c.join(parts)` for a one-character separator

  function SplitOn(s: string, c: char): (parts: seq<string>)
    ensures |parts| >= 1
  {
    if s == [] then [[]]
    else
      var rest := SplitOn(s[1..], c);
      if s[0] == c then [[]] + rest else [[s[0]] + rest[0]] + rest[1..]
  }

  function JoinWith(parts: seq<string>, c: char): string {
    if parts == [] then []
    else if |parts| == 1 then parts[0]
    else parts[0] + [c] + JoinWith(parts[1..], c)
  }

  /** A piece without the separator stays whole and glues onto the next piece. */
  lemma {:induction false} SplitOnPiece(a: string, t: string, c: char)
    requires c !in a
    ensures SplitOn(a + t, c) == [a + SplitOn(t, c)[0]] + SplitOn(t, c)[1..]
    decreases |a|
  {
    if a != [] {
      assert (a + t)[1..] == a[1..] + t;
      SplitOnPiece(a[1..], t, c);
      assert [a[0]] + (a[1..] + SplitOn(t, c)[0]) == a + SplitOn(t, c)[0];
    } else {
      var r := SplitOn(t, c);
      assert a + t == t;
      assert a + r[0] == r[0];
      assert r == [r[0]] + r[1..];
    }
  }

  /** A separator right after a piece without it ends that piece. */
  lemma SplitOnAtSeparator(a: string, t: string, c: char)
    requires c !in a
    ensures SplitOn(a + [c] + t, c) == [a] + SplitOn(t, c)
  {
    assert a + [c] + t == a + ([c] + t);
    SplitOnPiece(a, [c] + t, c);
    assert ([c] + t)[1..] == t;
    assert SplitOn([c] + t, c) == [[]] + SplitOn(t, c);
    assert a + [] == a;
  }

  /** Text without the separator splits into itself alone. */
  lemma SplitOnWhole(a: string, c: char)
    requires c !in a
    ensures SplitOn(a, c) == [a]
  {
    SplitOnPiece(a, [], c);
    assert SplitOn([], c) == [[]];
    assert a + [] == a;
  }

  /** Splitting a joined list gives the list back when no part holds the
      separator. */
  lemma {:induction false} SplitJoin(parts: seq<string>, c: char)
    requires parts != []
    requires forall p :: p in parts ==> c !in p
    ensures SplitOn(JoinWith(parts, c), c) == parts
    decreases |parts|
  {
    if |parts| == 1 {
      SplitOnWhole(parts[0], c);
    } else {
      SplitJoin(parts[1..], c);
      SplitOnAtSeparator(parts[0], JoinWith(parts[1..], c), c);
      assert parts == [parts[0]] + parts[1..];
    }
  }

  /** Text glued onto the first piece comes out in front of the join. */
  lemma JoinGlue(x: string, parts: seq<string>, c: char)
    requires parts != []
    ensures JoinWith([x + parts[0]] + parts[1..], c) == x + JoinWith(parts, c)
  {
    var glued := [x + parts[0]] + parts[1..];
    if |parts| > 1 {
      assert glued[1..] == parts[1..];
      assert JoinWith(glued, c) == (x + parts[0]) + [c] + JoinWith(parts[1..], c);
    }
  }

  /** An empty first piece comes out as a leading separator. */
  lemma JoinEmptyFirst(parts: seq<string>, c: char)
    requires parts != []
    ensures JoinWith([[]] + parts, c) == [c] + JoinWith(parts, c)
  {
    assert ([[]] + parts)[1..] == parts;
  }

  /** Joining the pieces of a split gives the string back, for every string. */
  lemma {:induction false} JoinSplit(s: string, c: char)
    ensures JoinWith(SplitOn(s, c), c) == s
    decreases |s|
  {
    if s != [] {
      var rest := SplitOn(s[1..], c);
      JoinSplit(s[1..], c);
      if s[0] == c {
        JoinEmptyFirst(rest, c);
      } else {
        JoinGlue([s[0]], rest, c);
      }
      assert s == [s[0]] + s[1..];
    }
  }
}
