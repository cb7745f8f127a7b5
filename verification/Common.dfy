/** Small shared vocabulary: an optional value, reversal, string order,
    first occurrences, and the first-maximum scan that
    Python's max(items, key=...) performs. */
module Common {

  datatype Option<+T> = None | Some(value: T)

  function Min(a: int, b: int): (m: int)
    ensures m <= a && m <= b && (m == a || m == b)
  {
    if a < b then a else b
  }

  function Max(a: int, b: int): (m: int)
    ensures m >= a && m >= b && (m == a || m == b)
  {
    if a < b then b else a
  }

  lemma HeadTail<T>(s: seq<T>, more: seq<T>)
    requires s != []
    ensures [s[0]] + (s[1..] + more) == s + more
  {
  }

  lemma Assoc<T>(a: seq<T>, b: seq<T>, c: seq<T>)
    ensures a + (b + c) == a + b + c
  {
  }

  lemma DropOne<T>(s: seq<T>, k: nat)
    requires k < |s|
    ensures s[k..] != [] && s[k..][0] == s[k] && s[k..][1..] == s[k + 1..]
  {
  }

  function Reverse<T>(s: seq<T>): (r: seq<T>)
    ensures |r| == |s|
    ensures forall k :: 0 <= k < |s| ==> r[k] == s[|s| - 1 - k]
  {
    seq(|s|, k requires 0 <= k < |s| => s[|s| - 1 - k])
  }

  lemma ReverseFirst<T>(s: seq<T>)
    requires s != []
    ensures Reverse(s) == Reverse(s[1..]) + [s[0]]
  {
  }

  /** The order in which Python compares strings. */
  predicate TextBelow(a: string, b: string) {
    if b == "" then false else if a == "" then true
    else a[0] < b[0] || (a[0] == b[0] && TextBelow(a[1..], b[1..]))
  }

  // ---------- picking from a list ----------

  /** Positions below n in ascending order. */
  predicate Ascending(ix: seq<nat>, n: nat) {
    && (forall k :: 0 <= k < |ix| ==> ix[k] < n)
    && forall k, l :: 0 <= k < l < |ix| ==> ix[k] < ix[l]
  }

  function Found<U>(found: Option<U>): seq<U> {
    match found case None => [] case Some(u) => [u]
  }

  /** What `pick` finds in the items of a list, in their order: [p for x in xs if (p := pick(x))]. */
  function Kept<T, U>(xs: seq<T>, pick: T -> Option<U>): (out: seq<U>)
    ensures |out| <= |xs|
  {
    if xs == [] then []
    else Kept(xs[..|xs| - 1], pick) + Found(pick(xs[|xs| - 1]))
  }

  lemma KeptSnoc<T, U>(xs: seq<T>, x: T, pick: T -> Option<U>)
    ensures Kept(xs + [x], pick) == Kept(xs, pick) + Found(pick(x))
  {
    assert (xs + [x])[..|xs|] == xs;
  }

  lemma {:induction false} KeptCons<T, U>(x: T, rest: seq<T>, pick: T -> Option<U>)
    ensures Kept([x] + rest, pick) == Found(pick(x)) + Kept(rest, pick)
  {
    hide Kept, Found;
    if rest == [] {
      assert [x] + rest == [x];
      KeptOne(x, pick);
    } else {
      var init, last := rest[..|rest| - 1], rest[|rest| - 1];
      KeptCons(x, init, pick);
      KeptSnoc([x] + init, last, pick);
      KeptSnoc(init, last, pick);
      Assoc([x], init, [last]);
      assert rest == init + [last];
      Assoc(Found(pick(x)), Kept(init, pick), Found(pick(last)));
    }
  }

  lemma KeptOne<T, U>(x: T, pick: T -> Option<U>)
    ensures Kept([], pick) == [] && Kept([x], pick) == Found(pick(x)) == Found(pick(x)) + []
  {
    assert [x][..0] == [];
  }

  lemma KeptFront<T, U>(xs: seq<T>, pick: T -> Option<U>)
    requires xs != []
    ensures Kept(xs, pick) == Found(pick(xs[0])) + Kept(xs[1..], pick)
  {
    hide Kept, Found;
    KeptCons(xs[0], xs[1..], pick);
    assert xs == [xs[0]] + xs[1..];
  }

  /** `out` holds, in order, what `pick` finds at the positions `ix`, and it finds nothing elsewhere. */
  ghost predicate Picks<T, U>(xs: seq<T>, out: seq<U>, ix: seq<nat>, pick: T -> Option<U>) {
    && Ascending(ix, |xs|) && |out| == |ix|
    && (forall i :: 0 <= i < |xs| ==> (i in ix <==> pick(xs[i]).Some?))
    && forall k :: 0 <= k < |ix| ==> pick(xs[ix[k]]) == Some(out[k])
  }

  lemma {:induction false} KeptPicks<T, U>(xs: seq<T>, pick: T -> Option<U>) returns (ix: seq<nat>)
    ensures Picks(xs, Kept(xs, pick), ix, pick)
  {
    ix := [];
    if xs != [] {
      var n := |xs| - 1;
      ix := KeptPicks(xs[..n], pick);
      PicksSnoc(xs, Kept(xs[..n], pick), ix, pick);
      if pick(xs[n]).Some? { ix := ix + [n]; }
    }
  }

  lemma NoPositions(ix: seq<nat>)
    requires Ascending(ix, 0)
    ensures ix == []
  {
    if ix != [] {
      FirstBelow(ix, 0);
      assert false;
    }
  }

  lemma FirstBelow(ix: seq<nat>, n: nat)
    requires Ascending(ix, n) && ix != []
    ensures ix[0] < n
  {
  }

  lemma WithoutLast(ix: seq<nat>, n: nat) returns (front: seq<nat>)
    requires Ascending(ix, n + 1) && n in ix
    ensures ix == front + [n] && Ascending(front, n)
    ensures forall i :: 0 <= i < n ==> (i in front <==> i in ix)
  {
    var m := |ix| - 1;
    var last := ix[m];
    var k :| 0 <= k < |ix| && ix[k] == n;
    assert k == m;
    front := ix[..m];
    assert ix == front + [last];
  }

  lemma {:induction false} SamePositions(a: seq<nat>, b: seq<nat>, n: nat)
    requires Ascending(a, n) && Ascending(b, n) && forall i :: 0 <= i < n ==> (i in a <==> i in b)
    ensures a == b
    decreases n
  {
    hide Ascending;
    if n == 0 {
      NoPositions(a);
      NoPositions(b);
    } else if n - 1 in a {
      assert n - 1 in b;
      var a' := WithoutLast(a, n - 1);
      var b' := WithoutLast(b, n - 1);
      SamePositions(a', b', n - 1);
    } else {
      assert n - 1 !in b;
      NotLast(a, n - 1);
      NotLast(b, n - 1);
      SamePositions(a, b, n - 1);
    }
  }

  lemma NotLast(ix: seq<nat>, n: nat)
    requires Ascending(ix, n + 1) && n !in ix
    ensures Ascending(ix, n)
  {
    assert forall k :: 0 <= k < |ix| ==> ix[k] in ix;
  }

  /** Such a list is the kept one. */
  lemma PicksKept<T, U>(xs: seq<T>, out: seq<U>, ix: seq<nat>, pick: T -> Option<U>)
    requires Picks(xs, out, ix, pick)
    ensures out == Kept(xs, pick)
  {
    hide Kept;
    var iy := KeptPicks(xs, pick);
    assert forall i :: 0 <= i < |xs| ==> (i in ix <==> pick(xs[i]).Some?) && (i in iy <==> pick(xs[i]).Some?);
    SamePositions(ix, iy, |xs|);
    assert forall k :: 0 <= k < |ix| ==> Some(out[k]) == pick(xs[ix[k]]) == Some(Kept(xs, pick)[k]);
  }

  lemma PicksSnoc<T, U>(xs: seq<T>, out: seq<U>, ix: seq<nat>, pick: T -> Option<U>)
    requires xs != [] && Picks(xs[..|xs| - 1], out, ix, pick)
    ensures var n := |xs| - 1;
            match pick(xs[n]) case None => Picks(xs, out, ix, pick) case Some(u) => Picks(xs, out + [u], ix + [n], pick)
  {
    var n := |xs| - 1;
    assert forall i :: 0 <= i < n ==> xs[..n][i] == xs[i];
    assert (ix + [n])[|ix|] == n;
    assert forall i: nat :: i in ix + [n] <==> i in ix || i == n;
  }

  // ---------- keeping first occurrences ----------

  function Uniq<T(==)>(xs: seq<T>): (us: seq<T>) {
    if xs == [] then []
    else
      var last := |xs| - 1;
      Uniq(xs[..last]) + if xs[last] in xs[..last] then [] else [xs[last]]
  }

  lemma {:induction false} UniqMembers<T>(xs: seq<T>, x: T)
    ensures x in Uniq(xs) <==> x in xs
  {
    if xs == [] {
    } else {
      var last := |xs| - 1;
      UniqMembers(xs[..last], x);
      assert xs == xs[..last] + [xs[last]];
    }
  }

  predicate NoRepeats<T(==)>(xs: seq<T>) {
    forall i, j :: 0 <= i < j < |xs| ==> xs[i] != xs[j]
  }

  lemma {:induction false} UniqNoRepeats<T>(xs: seq<T>)
    ensures NoRepeats(Uniq(xs))
  {
    if xs == [] {
    } else {
      UniqNoRepeats(xs[..|xs| - 1]);
      UniqMembers(xs[..|xs| - 1], xs[|xs| - 1]);
    }
  }

  lemma {:induction false} UniqFixed<T>(xs: seq<T>)
    ensures Uniq(xs) == xs <==> NoRepeats(xs)
  {
    UniqNoRepeats(xs);
    if NoRepeats(xs) && xs != [] {
      UniqFixed(xs[..|xs| - 1]);
      assert xs == xs[..|xs| - 1] + [xs[|xs| - 1]];
    }
  }

  lemma {:induction false} UniqSplit<T>(xs: seq<T>, ys: seq<T>)
    ensures Uniq(xs + ys) == Uniq(Uniq(xs) + Uniq(ys))
  {
    if ys == [] {
      assert xs + ys == xs && Uniq(xs) + Uniq(ys) == Uniq(xs);
      UniqNoRepeats(xs);
      UniqFixed(Uniq(xs));
    } else {
      var last := |ys| - 1;
      UniqSplit(xs, ys[..last]);
      UniqSplitSnoc(xs, ys[..last], ys[last]);
      assert ys == ys[..last] + [ys[last]];
    }
  }

  lemma UniqSplitSnoc<T>(xs: seq<T>, ys: seq<T>, y: T)
    requires Uniq(xs + ys) == Uniq(Uniq(xs) + Uniq(ys))
    ensures Uniq(xs + (ys + [y])) == Uniq(Uniq(xs) + Uniq(ys + [y]))
  {
    hide Uniq;
    assert xs + (ys + [y]) == xs + ys + [y];
    UniqSnoc(xs + ys, y);
    UniqSnoc(ys, y);
    if y !in ys {
      UniqMembers(xs, y);
      UniqMembers(ys, y);
      UniqSnoc(Uniq(xs) + Uniq(ys), y);
      assert Uniq(xs) + (Uniq(ys) + [y]) == Uniq(xs) + Uniq(ys) + [y];
    }
  }

  lemma UniqSnoc<T>(xs: seq<T>, x: T)
    ensures Uniq(xs + [x]) == if x in xs then Uniq(xs) else Uniq(xs) + [x]
  {
    assert (xs + [x])[..|xs|] == xs;
  }

  lemma {:induction false} UniqPrefix<T>(xs: seq<T>, ys: seq<T>)
    ensures Uniq(xs) <= Uniq(xs + ys)
  {
    if ys == [] {
      assert xs + ys == xs;
    } else {
      var last := |ys| - 1;
      UniqPrefix(xs, ys[..last]);
      UniqSnoc(xs + ys[..last], ys[last]);
      assert xs + ys == xs + ys[..last] + [ys[last]];
    }
  }

  /** A sort key: a real number or positive infinity. */
  datatype Key = Finite(value: real) | Infinite {
    predicate Below(other: Key) {
      match (this, other)
      case (Finite(x), Finite(y)) => x < y
      case (Finite(_), Infinite) => true
      case (Infinite, _) => false
    }
  }

  /** The position max() returns: the first one whose key no other key exceeds. */
  function FirstMax(keys: seq<Key>): (m: nat)
    requires keys != []
    ensures m < |keys|
    ensures forall j :: 0 <= j < |keys| ==> !keys[m].Below(keys[j])
    ensures forall j :: 0 <= j < m ==> keys[j].Below(keys[m])
  {
    var last := |keys| - 1;
    if last == 0 then 0
    else
      var m := FirstMax(keys[..last]);
      if keys[m].Below(keys[last]) then last else m
  }

  /** The scan itself. */
  method ArgMax(keys: seq<Key>) returns (m: nat)
    requires keys != []
    ensures m == FirstMax(keys)
  {
    m := 0;
    for k := 1 to |keys|
      invariant m < k && m == FirstMax(keys[..k])
    {
      assert keys[..k + 1][..k] == keys[..k];
      if keys[m].Below(keys[k]) {
        m := k;
      }
    }
    assert keys[..|keys|] == keys;
  }
}
