/** The order in which weighted layers are dealt: heavier ones first, then by name. */
module PersonaOrder {
  import opened Common
  import opened PersonaPlanning

  // ---------- the order of strings ----------

  /** Position k is where a and b part, and a has the smaller character there or ends. */
  predicate PartsAt(a: string, b: string, k: nat) {
    k <= |a| && k < |b| && a[..k] == b[..k] && (k == |a| || a[k] < b[k])
  }

  lemma PartsHead(a: string, b: string, k: nat)
    requires PartsAt(a, b, k)
    ensures b != "" && (a == "" || a[0] < b[0] || a[0] == b[0])
  {
    if k > 0 { assert a[..k][0] == b[..k][0]; }
  }

  lemma {:induction false} TextBelowIff(a: string, b: string)
    ensures TextBelow(a, b) <==> exists k: nat :: PartsAt(a, b, k)
  {
    if b == "" {
    } else if a == "" || a[0] != b[0] {
      if a == "" || a[0] < b[0] { assert PartsAt(a, b, 0); }
      if k: nat :| PartsAt(a, b, k) {
        PartsHead(a, b, k);
      }
    } else {
      TextBelowIff(a[1..], b[1..]);
      if k: nat :| PartsAt(a[1..], b[1..], k) {
        assert a[..k + 1] == [a[0]] + a[1..][..k] && b[..k + 1] == [b[0]] + b[1..][..k];
        assert PartsAt(a, b, k + 1);
      }
      if k: nat :| PartsAt(a, b, k) {
        assert k > 0;
        assert a[1..][..k - 1] == a[..k][1..] && b[1..][..k - 1] == b[..k][1..];
        assert PartsAt(a[1..], b[1..], k - 1);
      }
    }
  }

  lemma {:induction false} TextTotal(a: string, b: string)
    ensures a == b || TextBelow(a, b) || TextBelow(b, a)
    ensures !(TextBelow(a, b) && TextBelow(b, a)) && !TextBelow(a, a)
  {
    if a != "" { TextTotal(a[1..], if b == "" then "" else b[1..]); }
    if a != "" && b != "" && a[0] == b[0] && a[1..] == b[1..] {
      assert a == [a[0]] + a[1..] && b == [b[0]] + b[1..];
    }
  }

  lemma {:induction false} TextTransitive(a: string, b: string, c: string)
    requires TextBelow(a, b) && TextBelow(b, c)
    ensures TextBelow(a, c)
  {
    if a != "" && a[0] == b[0] == c[0] { TextTransitive(a[1..], b[1..], c[1..]); }
  }

  // ---------- the order of layers ----------

  /** Layer a may stand before layer b. */
  predicate MayPrecede(ws: Weights, a: Layer, b: Layer) {
    !Earlier(ws, b, a)
  }

  predicate Sorted(ws: Weights, ls: seq<Layer>) {
    forall i, j :: 0 <= i < j < |ls| ==> MayPrecede(ws, ls[i], ls[j])
  }

  lemma PrecedeTransitive(ws: Weights, a: Layer, b: Layer, c: Layer)
    requires MayPrecede(ws, a, b) && MayPrecede(ws, b, c)
    ensures MayPrecede(ws, a, c)
  {
    hide WeightOf, TextBelow;
    TextTotal(Name(a), Name(b));
    TextTotal(Name(b), Name(c));
    TextTotal(Name(a), Name(c));
    if TextBelow(Name(a), Name(b)) && TextBelow(Name(b), Name(c)) { TextTransitive(Name(a), Name(b), Name(c)); }
  }

  lemma EarlierPrecedes(ws: Weights, a: Layer, b: Layer)
    requires Earlier(ws, a, b)
    ensures MayPrecede(ws, a, b)
  {
    hide WeightOf, TextBelow;
    TextTotal(Name(a), Name(b));
  }

  lemma {:induction false} InsertMembers(ws: Weights, l: Layer, ls: seq<Layer>, x: Layer)
    ensures x in Insert(ws, l, ls) <==> x == l || x in ls
  {
    hide Earlier;
    if ls == [] || !Earlier(ws, ls[0], l) {
    } else {
      InsertMembers(ws, l, ls[1..], x);
    }
  }

  lemma {:induction false} InsertSorted(ws: Weights, l: Layer, ls: seq<Layer>)
    requires Sorted(ws, ls)
    ensures Sorted(ws, Insert(ws, l, ls))
  {
    hide Earlier, MayPrecede;
    if ls == [] {
    } else if Earlier(ws, ls[0], l) {
      var rest := Insert(ws, l, ls[1..]);
      InsertSorted(ws, l, ls[1..]);
      forall j | 0 <= j < |rest|
        ensures MayPrecede(ws, ls[0], rest[j])
      {
        InsertMembers(ws, l, ls[1..], rest[j]);
        EarlierPrecedes(ws, ls[0], l);
      }
    } else {
      NotEarlier(ws, l, ls[0]);
      forall j | 0 <= j < |ls|
        ensures MayPrecede(ws, l, ls[j])
      {
        if j > 0 { PrecedeTransitive(ws, l, ls[0], ls[j]); }
      }
    }
  }

  lemma NotEarlier(ws: Weights, a: Layer, b: Layer)
    requires !Earlier(ws, b, a)
    ensures MayPrecede(ws, a, b)
  {
  }

  lemma {:induction false} SortSorted(ws: Weights, ls: seq<Layer>)
    ensures Sorted(ws, SortByWeight(ws, ls))
  {
    if ls == [] {
    } else {
      SortSorted(ws, ls[1..]);
      InsertSorted(ws, ls[0], SortByWeight(ws, ls[1..]));
    }
  }

  lemma SelfPrecedes(ws: Weights, l: Layer)
    ensures MayPrecede(ws, l, l)
  {
    TextTotal(Name(l), Name(l));
  }

  lemma {:induction false} RepeatedMembers(ws: Weights, ls: seq<Layer>, x: Layer)
    ensures x in Repeated(ws, ls) ==> x in ls
  {
    hide Repeats;
    if ls == [] {
    } else {
      RepeatedMembers(ws, ls[..|ls| - 1], x);
    }
  }

  lemma {:induction false} RepeatedSorted(ws: Weights, ls: seq<Layer>)
    requires Sorted(ws, ls)
    ensures Sorted(ws, Repeated(ws, ls))
  {
    hide Repeats, MayPrecede;
    if ls == [] {
    } else {
      var n := |ls| - 1;
      var before, all := Repeated(ws, ls[..n]), Repeated(ws, ls);
      RepeatedSorted(ws, ls[..n]);
      SelfPrecedes(ws, ls[n]);
      forall i, j | 0 <= i < j < |all|
        ensures MayPrecede(ws, all[i], all[j])
      {
        if i < |before| {
          RepeatedMembers(ws, ls[..n], before[i]);
        }
      }
    }
  }

  /** With weights given, layers come in descending weight, a layer without one counting as weight 1,
      and layers of equal weight in the order of their names. */
  lemma WeightedInOrder(ls: seq<Layer>, ws: Weights, i: nat, j: nat)
    requires ws != map[] && i < j < |WeightedSequence(ls, ws)|
    ensures var a, b := Name(WeightedSequence(ls, ws)[i]), Name(WeightedSequence(ls, ws)[j]);
            var u, v := if a in ws then ws[a] else 1.0, if b in ws then ws[b] else 1.0;
            u > v || (u == v && (a == b || TextBelow(a, b)))
  {
    hide Repeated, SortByWeight, TextBelow;
    var all := WeightedSequence(ls, ws);
    SortSorted(ws, ls);
    RepeatedSorted(ws, SortByWeight(ws, ls));
    assert MayPrecede(ws, all[i], all[j]);
    TextTotal(Name(all[i]), Name(all[j]));
  }
}
