/** When the structured and the legacy view of a scope are the same list, told from the records
    in the JSONL store. */
module MemoryViews {
  import opened Common
  import opened MemoryText
  import opened MemoryFormat
  import opened MemoryIndex

  // ---------- first occurrences ----------

  /** What each record of a store offers to a view: a clause, or nothing. */
  type Offers = seq<Option<string>>

  function Offered(os: Offers): (clauses: seq<string>) {
    if os == [] then []
    else Offered(os[..|os| - 1]) + if os[|os| - 1].Some? then [os[|os| - 1].value] else []
  }

  predicate SameNorm(os: Offers, j: nat, k: nat)
    requires j < |os| && k < |os|
  {
    os[j].Some? && os[k].Some? && Norm(os[j].value) == Norm(os[k].value)
  }

  /** Offer k is the first one with its norm. */
  predicate First(os: Offers, k: nat)
    requires k < |os|
  {
    os[k].Some? && forall j :: 0 <= j < k ==> !SameNorm(os, j, k)
  }

  function Firsts(os: Offers): (ix: seq<nat>)
    ensures forall i :: 0 <= i < |ix| ==> ix[i] < |os| && os[ix[i]].Some?
    ensures forall i, j :: 0 <= i < j < |ix| ==> ix[i] < ix[j]
  {
    if os == [] then []
    else Firsts(os[..|os| - 1]) + if First(os, |os| - 1) then [|os| - 1] else []
  }

  lemma {:induction false} FirstsIff(os: Offers, k: nat)
    requires k < |os|
    ensures k in Firsts(os) <==> First(os, k)
  {
    hide Norm;
    var last := |os| - 1;
    if k < last {
      FirstsIff(os[..last], k);
      assert forall j :: 0 <= j <= k ==> os[..last][j] == os[j];
      assert forall j :: 0 <= j < k ==> SameNorm(os[..last], j, k) == SameNorm(os, j, k);
    }
  }

  function At(os: Offers, ix: seq<nat>): (out: seq<string>)
    requires forall i :: 0 <= i < |ix| ==> ix[i] < |os| && os[ix[i]].Some?
    ensures |out| == |ix| && forall i :: 0 <= i < |ix| ==> out[i] == os[ix[i]].value
  {
    seq(|ix|, i requires 0 <= i < |ix| => os[ix[i]].value)
  }

  lemma {:induction false} OfferedIff(os: Offers, c: string)
    ensures NormIn(c, Offered(os)) <==> exists j :: 0 <= j < |os| && os[j].Some? && Norm(os[j].value) == Norm(c)
  {
    hide Norm;
    if os == [] {
    } else {
      var init, last := os[..|os| - 1], os[|os| - 1];
      OfferedIff(init, c);
      assert forall j :: 0 <= j < |init| ==> init[j] == os[j];
      if last.Some? {
        NormInSnoc(Offered(init), last.value, c);
      } else {
        assert Offered(init) + [] == Offered(init);
      }
    }
  }

  /** The last offer is a first one exactly when its norm is new. */
  lemma NewLast(os: Offers, c: string)
    ensures First(os + [Some(c)], |os|) <==> !NormIn(c, Offered(os))
  {
    hide Norm, Offered;
    var all := os + [Some(c)];
    OfferedIff(os, c);
    assert forall j :: 0 <= j < |os| ==> all[j] == os[j];
    assert forall j :: 0 <= j < |os| ==> (SameNorm(all, j, |os|) <==> os[j].Some? && Norm(os[j].value) == Norm(c));
  }

  lemma FirstsSnoc(os: Offers, o: Option<string>)
    ensures Firsts(os + [o]) == Firsts(os) + if First(os + [o], |os|) then [|os|] else []
    ensures Offered(os + [o]) == Offered(os) + if o.Some? then [o.value] else []
    ensures At(os + [o], Firsts(os)) == At(os, Firsts(os))
  {
    hide First;
    assert (os + [o])[..|os|] == os;
  }

  /** Deduplicating offers keeps the first ones. */
  lemma {:induction false} DedupIsFirsts(os: Offers)
    ensures Dedup(Offered(os)) == At(os, Firsts(os))
  {
    hide Norm;
    if os == [] {
    } else {
      hide First, Firsts, Offered, Dedup;
      var init, o := os[..|os| - 1], os[|os| - 1];
      DedupIsFirsts(init);
      FirstsSnoc(init, o);
      assert os == init + [o];
      if o.Some? {
        DedupSnoc(Offered(init), o.value);
        DedupKeepsNorms(Offered(init), o.value);
        NewLast(init, o.value);
      } else {
        NothingNew(os);
        assert Offered(init) + [] == Offered(init);
      }
    }
  }

  lemma NothingNew(os: Offers)
    requires os != [] && os[|os| - 1].None?
    ensures !First(os, |os| - 1)
  {
  }

  // ---------- equal lists ----------

  predicate Holds(xs: seq<string>, x: string) {
    exists i :: 0 <= i < |xs| && xs[i] == x
  }

  /** Elements of the first list come in the same order in the second. */
  ghost predicate InOrder(xs: seq<string>, ys: seq<string>) {
    forall i, i', j, j' :: 0 <= i < i' < |xs| && 0 <= j < |ys| && 0 <= j' < |ys| ==>
      ys[j] == xs[i] && ys[j'] == xs[i'] ==> j < j'
  }

  predicate HoldsAll(xs: seq<string>, ys: seq<string>) {
    forall j :: 0 <= j < |ys| ==> Holds(xs, ys[j])
  }

  lemma SameHead(xs: seq<string>, ys: seq<string>)
    requires InOrder(xs, ys) && HoldsAll(xs, ys) && HoldsAll(ys, xs) && xs != []
    ensures ys != [] && xs[0] == ys[0]
  {
    assert Holds(ys, xs[0]);
    var j :| 0 <= j < |ys| && ys[j] == xs[0];
    assert Holds(xs, ys[0]);
    var i :| 0 <= i < |xs| && xs[i] == ys[0];
    assert i == 0;
  }

  lemma TailHolds(xs: seq<string>, ys: seq<string>)
    requires HoldsAll(xs, ys) && NoRepeats(ys) && xs != [] && ys != [] && xs[0] == ys[0]
    ensures HoldsAll(xs[1..], ys[1..])
  {
    forall j | 0 <= j < |ys[1..]|
      ensures Holds(xs[1..], ys[1..][j])
    {
      assert Holds(xs, ys[j + 1]);
      var i :| 0 <= i < |xs| && xs[i] == ys[j + 1];
      assert xs[1..][i - 1] == ys[1..][j];
    }
  }

  lemma InOrderNoRepeats(xs: seq<string>, ys: seq<string>)
    requires InOrder(xs, ys) && HoldsAll(ys, xs)
    ensures NoRepeats(xs)
  {
    forall i, i' | 0 <= i < i' < |xs|
      ensures xs[i] != xs[i']
    {
      assert Holds(ys, xs[i]);
      var j :| 0 <= j < |ys| && ys[j] == xs[i];
    }
  }

  /** Two lists without repetitions are equal when they hold the same elements in one order. */
  lemma {:induction false} SameOrder(xs: seq<string>, ys: seq<string>)
    requires NoRepeats(ys) && HoldsAll(ys, xs) && HoldsAll(xs, ys) && InOrder(xs, ys)
    ensures xs == ys
  {
    assert |ys| > 0 ==> Holds(xs, ys[0]);
    if xs == [] {
    } else {
      SameHead(xs, ys);
      InOrderNoRepeats(xs, ys);
      TailHolds(xs, ys);
      TailHolds(ys, xs);
      assert InOrder(xs[1..], ys[1..]);
      SameOrder(xs[1..], ys[1..]);
    }
  }

  // ---------- the condition on the records ----------

  /** A validated record of the scope offers its stripped clause to the legacy view, unless blank. */
  function Stored(r: Record, model: string, hash: string): Option<string> {
    if InScope(r, model, hash) && !Blank(r.clause) then Some(Strip(r.clause)) else None
  }

  /** An active one offers its clause as it is to the structured view. */
  function Active(r: Record, model: string, hash: string): Option<string> {
    if Scoped(r, model, hash) then Some(r.clause) else None
  }

  function StoredOffers(ds: seq<Record>, model: string, hash: string): (os: Offers)
    ensures |os| == |ds|
  {
    seq(|ds|, k requires 0 <= k < |ds| => Stored(ds[k], model, hash))
  }

  function ActiveOffers(ds: seq<Record>, model: string, hash: string): (os: Offers)
    ensures |os| == |ds|
  {
    seq(|ds|, k requires 0 <= k < |ds| => Active(ds[k], model, hash))
  }

  lemma {:induction false} OffersAreClauses(ds: seq<Record>, model: string, hash: string)
    ensures Offered(StoredOffers(ds, model, hash)) == StoredClauses(ds, model, hash)
    ensures Offered(ActiveOffers(ds, model, hash)) == ScopedClauses(ds, model, hash)
  {
    hide Strip;
    if ds == [] {
    } else {
      var init := ds[..|ds| - 1];
      OffersAreClauses(init, model, hash);
      assert StoredOffers(ds, model, hash)[..|init|] == StoredOffers(init, model, hash);
      assert ActiveOffers(ds, model, hash)[..|init|] == ActiveOffers(init, model, hash);
    }
  }

  /** Record k is the first validated one of its scope with its clause, blank clauses apart. */
  predicate FirstStored(ds: seq<Record>, model: string, hash: string, k: nat)
    requires k < |ds|
  {
    First(StoredOffers(ds, model, hash), k)
  }

  /** Record l is the first active one of its scope with its clause. */
  predicate FirstActive(ds: seq<Record>, model: string, hash: string, l: nat)
    requires l < |ds|
  {
    First(ActiveOffers(ds, model, hash), l)
  }

  /** Record l repeats as active, word for word, what record k has between white space. */
  predicate Repeats(ds: seq<Record>, model: string, hash: string, k: nat, l: nat)
    requires k < |ds| && l < |ds|
  {
    FirstStored(ds, model, hash, k) && FirstActive(ds, model, hash, l) && ds[l].clause == Strip(ds[k].clause)
  }

  predicate Repeated(ds: seq<Record>, model: string, hash: string, k: nat)
    requires k < |ds|
  {
    exists l :: 0 <= l < |ds| && Repeats(ds, model, hash, k, l)
  }

  /** No active clause is blank; the first active record of each clause has exactly the stripped
      text of the first record of that clause, whatever its status; and both come in one order. */
  ghost predicate ViewsMatch(ds: seq<Record>, model: string, hash: string) {
    && (forall l :: 0 <= l < |ds| && Scoped(ds[l], model, hash) ==> !Blank(ds[l].clause))
    && (forall k :: 0 <= k < |ds| && FirstStored(ds, model, hash, k) ==> Repeated(ds, model, hash, k))
    && (forall k, k', l, l' :: 0 <= k < k' < |ds| && 0 <= l < |ds| && 0 <= l' < |ds| ==>
          Repeats(ds, model, hash, k, l) && Repeats(ds, model, hash, k', l') ==> l < l')
  }

  /** The lists of the two views, spelled out. */
  ghost predicate Lists(ds: seq<Record>, model: string, hash: string, os: Offers, ps: Offers, xs: seq<string>, ys: seq<string>) {
    && os == StoredOffers(ds, model, hash) && ps == ActiveOffers(ds, model, hash)
    && xs == At(os, Firsts(os)) == Dedup(StoredClauses(ds, model, hash))
    && ys == At(ps, Firsts(ps)) == StructuredView(ds, model, hash)
    && DistinctNorms(ys)
  }

  /** The two deduplicated lists of a scope. */
  lemma ViewLists(ds: seq<Record>, model: string, hash: string) returns (os: Offers, ps: Offers, xs: seq<string>, ys: seq<string>)
    ensures Lists(ds, model, hash, os, ps, xs, ys)
  {
    os, ps := StoredOffers(ds, model, hash), ActiveOffers(ds, model, hash);
    OffersAreClauses(ds, model, hash);
    DedupIsFirsts(os);
    DedupIsFirsts(ps);
    DedupDistinct(Offered(ps));
    xs, ys := At(os, Firsts(os)), At(ps, Firsts(ps));
  }

  /** The position of a first offer in the list. */
  lemma FirstAt(os: Offers, k: nat) returns (i: nat)
    requires k < |os| && First(os, k)
    ensures i < |Firsts(os)| && Firsts(os)[i] == k
  {
    FirstsIff(os, k);
    i :| 0 <= i < |Firsts(os)| && Firsts(os)[i] == k;
  }

  lemma FirstBack(os: Offers, i: nat)
    requires i < |Firsts(os)|
    ensures First(os, Firsts(os)[i])
  {
    assert Firsts(os)[i] in Firsts(os);
    FirstsIff(os, Firsts(os)[i]);
  }

  lemma MatchGivesEqual(ds: seq<Record>, model: string, hash: string)
    requires ViewsMatch(ds, model, hash)
    ensures Dedup(StoredClauses(ds, model, hash)) == StructuredView(ds, model, hash)
  {
    hide Norm, ViewsMatch, Firsts, Dedup, StructuredView;
    var os, ps, xs, ys := ViewLists(ds, model, hash);
    forall i | 0 <= i < |xs|
      ensures Holds(ys, xs[i])
    {
      StoredIsListed(ds, model, hash, i, os, ps, xs, ys);
    }
    forall j | 0 <= j < |ys|
      ensures Holds(xs, ys[j])
    {
      ActiveIsListed(ds, model, hash, j, os, ps, xs, ys);
    }
    forall i, i', j, j' | 0 <= i < i' < |xs| && 0 <= j < |ys| && 0 <= j' < |ys| && ys[j] == xs[i] && ys[j'] == xs[i']
      ensures j < j'
    {
      ListedInOrder(ds, model, hash, i, i', j, j', os, ps, xs, ys);
    }
    assert forall i, j :: 0 <= i < j < |ys| ==> Norm(ys[i]) != Norm(ys[j]);
    SameOrder(xs, ys);
  }

  lemma StoredIsListed(ds: seq<Record>, model: string, hash: string, i: nat, os: Offers, ps: Offers, xs: seq<string>, ys: seq<string>)
    requires ViewsMatch(ds, model, hash) && Lists(ds, model, hash, os, ps, xs, ys) && i < |xs|
    ensures Holds(ys, xs[i])
  {
    hide Norm, Strip, First, Firsts, Dedup, StructuredView;
    var k := Firsts(os)[i];
    FirstBack(os, i);
    assert FirstStored(ds, model, hash, k);
    assert Repeated(ds, model, hash, k);
    var l :| 0 <= l < |ds| && Repeats(ds, model, hash, k, l);
    var j := FirstAt(ps, l);
    assert ys[j] == xs[i];
  }

  lemma ListedInOrder(ds: seq<Record>, model: string, hash: string, i: nat, i': nat, j: nat, j': nat,
                      os: Offers, ps: Offers, xs: seq<string>, ys: seq<string>)
    requires ViewsMatch(ds, model, hash) && Lists(ds, model, hash, os, ps, xs, ys)
    requires i < i' < |xs| && j < |ys| && j' < |ys| && ys[j] == xs[i] && ys[j'] == xs[i']
    ensures j < j'
  {
    hide Norm, Strip, First, Firsts, Dedup, StructuredView;
    FirstBack(os, i);
    FirstBack(os, i');
    FirstBack(ps, j);
    FirstBack(ps, j');
    assert Repeats(ds, model, hash, Firsts(os)[i], Firsts(ps)[j]);
    assert Repeats(ds, model, hash, Firsts(os)[i'], Firsts(ps)[j']);
  }

  /** An active clause is found in the legacy list, with its own text. */
  lemma ActiveIsListed(ds: seq<Record>, model: string, hash: string, j: nat, os: Offers, ps: Offers, xs: seq<string>, ys: seq<string>)
    requires ViewsMatch(ds, model, hash) && Lists(ds, model, hash, os, ps, xs, ys) && j < |ys|
    requires forall i :: 0 <= i < |xs| ==> Holds(ys, xs[i])
    ensures Holds(xs, ys[j])
  {
    hide Norm, Strip, First, Firsts, Dedup;
    var l := Firsts(ps)[j];
    var c := ds[l].clause;
    assert Scoped(ds[l], model, hash) && os[l] == Some(Strip(c));
    NormStrip(c);
    OffersAreClauses(ds, model, hash);
    OfferedIff(os, c);
    DedupKeepsNorms(Offered(os), c);
    var i :| 0 <= i < |xs| && Norm(xs[i]) == Norm(c);
    assert Holds(ys, xs[i]);
    var j' :| 0 <= j' < |ys| && ys[j'] == xs[i];
    assert j' == j;
  }

  lemma EqualGivesMatch(ds: seq<Record>, model: string, hash: string)
    requires Dedup(StoredClauses(ds, model, hash)) == StructuredView(ds, model, hash)
    ensures ViewsMatch(ds, model, hash)
  {
    hide Norm, Strip, First, Firsts, Dedup, StructuredView, FirstStored, Repeats, Repeated;
    var os, ps, xs, ys := ViewLists(ds, model, hash);
    forall l | 0 <= l < |ds| && Scoped(ds[l], model, hash)
      ensures !Blank(ds[l].clause)
    {
      ActiveNotBlank(ds, model, hash, l);
    }
    forall k | 0 <= k < |ds| && FirstStored(ds, model, hash, k)
      ensures Repeated(ds, model, hash, k)
    {
      EqualRepeats(ds, model, hash, k, os, ps, xs, ys);
    }
    forall k, k', l, l' | 0 <= k < k' < |ds| && 0 <= l < |ds| && 0 <= l' < |ds|
                          && Repeats(ds, model, hash, k, l) && Repeats(ds, model, hash, k', l')
      ensures l < l'
    {
      EqualInOrder(ds, model, hash, k, k', l, l', os, ps, xs, ys);
    }
  }

  lemma EqualRepeats(ds: seq<Record>, model: string, hash: string, k: nat, os: Offers, ps: Offers, xs: seq<string>, ys: seq<string>)
    requires Lists(ds, model, hash, os, ps, xs, ys) && xs == ys && k < |ds| && FirstStored(ds, model, hash, k)
    ensures Repeated(ds, model, hash, k)
  {
    hide Norm, Strip, First, Firsts, Dedup, StructuredView;
    var i := FirstAt(os, k);
    FirstBack(ps, i);
    assert ys[i] == xs[i];
    assert Repeats(ds, model, hash, k, Firsts(ps)[i]);
  }

  lemma EqualInOrder(ds: seq<Record>, model: string, hash: string, k: nat, k': nat, l: nat, l': nat,
                     os: Offers, ps: Offers, xs: seq<string>, ys: seq<string>)
    requires Lists(ds, model, hash, os, ps, xs, ys) && xs == ys && k < k' < |ds| && l < |ds| && l' < |ds|
    requires Repeats(ds, model, hash, k, l) && Repeats(ds, model, hash, k', l')
    ensures l < l'
  {
    hide Norm, Strip, First, Firsts, Dedup, StructuredView;
    var i := FirstAt(os, k);
    var i' := FirstAt(os, k');
    var j := FirstAt(ps, l);
    var j' := FirstAt(ps, l');
    assert xs[i] == ys[j] && xs[i'] == ys[j'];
    assert i == j && i' == j';
  }

  lemma ActiveNotBlank(ds: seq<Record>, model: string, hash: string, l: nat)
    requires Dedup(StoredClauses(ds, model, hash)) == StructuredView(ds, model, hash)
    requires l < |ds| && Scoped(ds[l], model, hash)
    ensures !Blank(ds[l].clause)
  {
    hide Norm, Strip, Firsts, Dedup;
    var c := ds[l].clause;
    var os, ps := StoredOffers(ds, model, hash), ActiveOffers(ds, model, hash);
    OffersAreClauses(ds, model, hash);
    assert ps[l] == Some(c);
    OfferedIff(ps, c);
    DedupKeepsNorms(ScopedClauses(ds, model, hash), c);
    DedupKeepsNorms(StoredClauses(ds, model, hash), c);
    OfferedIff(os, c);
    var k :| 0 <= k < |os| && os[k].Some? && Norm(os[k].value) == Norm(c);
    NormStrip(ds[k].clause);
    NormEmpty(ds[k].clause);
    NormEmpty(c);
  }

  /** Exactly when the two views of a scope are the same list, after any appends to fresh files. */
  lemma ViewsEqualIff(ops: seq<Op>, model: string, hash: string)
    requires forall k :: 0 <= k < |ops| ==> PrintsSafely(ops[k])
    ensures var ds := Run(ops).deployments;
            LegacyView(Run(ops).markdown, model, hash) == StructuredView(ds, model, hash) <==>
            if Printable(model, hash) then ViewsMatch(ds, model, hash)
            else forall l :: 0 <= l < |ds| ==> !Scoped(ds[l], model, hash)
  {
    hide Run, PrintsSafely, Dedup, ViewsMatch, LegacyView, StructuredView;
    var ds := Run(ops).deployments;
    LegacyViewIsStored(ops, model, hash);
    if Printable(model, hash) {
      if ViewsMatch(ds, model, hash) { MatchGivesEqual(ds, model, hash); }
      if Dedup(StoredClauses(ds, model, hash)) == StructuredView(ds, model, hash) { EqualGivesMatch(ds, model, hash); }
    } else {
      NothingActiveIff(ds, model, hash);
    }
  }

  lemma NothingActiveIff(ds: seq<Record>, model: string, hash: string)
    ensures StructuredView(ds, model, hash) == [] <==> forall l :: 0 <= l < |ds| ==> !Scoped(ds[l], model, hash)
  {
    hide Norm, Strip, Firsts;
    var ps := ActiveOffers(ds, model, hash);
    OffersAreClauses(ds, model, hash);
    forall l | 0 <= l < |ds| && Scoped(ds[l], model, hash)
      ensures StructuredView(ds, model, hash) != []
    {
      assert ps[l] == Some(ds[l].clause);
      OfferedIff(ps, ds[l].clause);
      DedupKeepsNorms(ScopedClauses(ds, model, hash), ds[l].clause);
    }
    if ScopedClauses(ds, model, hash) != [] {
      var c := ScopedClauses(ds, model, hash)[0];
      assert NormIn(c, ScopedClauses(ds, model, hash));
      OfferedIff(ps, c);
    }
  }

  // ---------- all along a run ----------

  /** A stored record that cannot part the views: a blank clause only on an inactive record, and a
      clause new to the scope only on an active record and without surrounding white space. */
  predicate Calm(ds: seq<Record>, model: string, hash: string, k: nat)
    requires k < |ds|
  {
    InScope(ds[k], model, hash) ==>
      if Blank(ds[k].clause) then !Scoped(ds[k], model, hash)
      else FirstStored(ds, model, hash, k) ==> Scoped(ds[k], model, hash) && Stripped(ds[k].clause)
  }

  predicate Same(ds: seq<Record>, model: string, hash: string) {
    Dedup(StoredClauses(ds, model, hash)) == StructuredView(ds, model, hash)
  }

  lemma NewIffUnknown(ds: seq<Record>, r: Record, model: string, hash: string)
    requires InScope(r, model, hash) && !Blank(r.clause)
    ensures FirstStored(ds + [r], model, hash, |ds|) <==> !NormIn(Strip(r.clause), StoredClauses(ds, model, hash))
  {
    hide Norm, Strip;
    var os, all := StoredOffers(ds, model, hash), StoredOffers(ds + [r], model, hash);
    OffersAreClauses(ds, model, hash);
    OfferedIff(os, Strip(r.clause));
    assert forall j :: 0 <= j < |ds| ==> all[j] == os[j];
    assert all[|ds|] == Some(Strip(r.clause));
    assert forall j :: 0 <= j < |ds| ==> (SameNorm(all, j, |ds|) <==> os[j].Some? && Norm(os[j].value) == Norm(Strip(r.clause)));
  }

  /** While the views agree, one more record keeps them equal exactly when it is calm. */
  lemma CalmStep(ds: seq<Record>, r: Record, model: string, hash: string)
    requires Same(ds, model, hash)
    ensures Same(ds + [r], model, hash) <==> Calm(ds + [r], model, hash, |ds|)
  {
    hide Norm, Strip, Stripped, Dedup, FirstStored;
    var scoped, stored, c := ScopedClauses(ds, model, hash), StoredClauses(ds, model, hash), Strip(r.clause);
    assert (ds + [r])[..|ds|] == ds && (ds + [r])[|ds|] == r;
    assert scoped + [] == scoped && stored + [] == stored;
    DedupSnoc(scoped, r.clause);
    DedupSnoc(stored, c);
    NormStrip(r.clause);
    StripIdempotent(r.clause);
    DedupKeepsNorms(stored, c);
    if InScope(r, model, hash) {
      if Blank(r.clause) {
        BlankIsNew(ds, model, hash, r.clause);
      } else {
        NewIffUnknown(ds, r, model, hash);
        var d := Dedup(scoped);
        assert (d + [c])[|d|] == c && (d + [r.clause])[|d|] == r.clause;
      }
    }
  }

  lemma BlankIsNew(ds: seq<Record>, model: string, hash: string, c: string)
    requires Blank(c)
    ensures !NormIn(c, Dedup(StoredClauses(ds, model, hash)))
  {
    hide Norm, Strip, Dedup;
    var os := StoredOffers(ds, model, hash);
    OffersAreClauses(ds, model, hash);
    DedupKeepsNorms(StoredClauses(ds, model, hash), c);
    OfferedIff(os, c);
    NormEmpty(c);
    forall k | 0 <= k < |os| && os[k].Some?
      ensures Norm(os[k].value) != Norm(c)
    {
      NormStrip(ds[k].clause);
      NormEmpty(ds[k].clause);
    }
  }

  lemma {:induction false} SameThroughoutIff(ds: seq<Record>, model: string, hash: string)
    ensures (forall n :: 0 <= n <= |ds| ==> Same(ds[..n], model, hash)) <==>
            (forall k :: 0 <= k < |ds| ==> Calm(ds, model, hash, k))
  {
    hide Same, Calm;
    if ds == [] {
      EmptySame(model, hash);
      assert ds[..0] == [];
    } else {
      var last := |ds| - 1;
      var init := ds[..last];
      SameThroughoutIff(init, model, hash);
      forall n | 0 <= n <= last
        ensures Same(ds[..n], model, hash) == Same(init[..n], model, hash)
      {
        assert ds[..n] == init[..n];
      }
      forall k | 0 <= k < last
        ensures Calm(ds, model, hash, k) == Calm(init, model, hash, k)
      {
        CalmLocal(ds, model, hash, k);
      }
      assert init[..last] == init && ds[..|ds|] == ds && ds == init + [ds[last]];
      if Same(init, model, hash) { CalmStep(init, ds[last], model, hash); }
    }
  }

  lemma EmptySame(model: string, hash: string)
    ensures Same([], model, hash)
  {
  }

  lemma CalmLocal(ds: seq<Record>, model: string, hash: string, k: nat)
    requires k < |ds| - 1
    ensures Calm(ds, model, hash, k) == Calm(ds[..|ds| - 1], model, hash, k)
  {
    hide Norm, Strip, Stripped;
    var init := ds[..|ds| - 1];
    var os, all := StoredOffers(init, model, hash), StoredOffers(ds, model, hash);
    assert forall j :: 0 <= j <= k ==> os[j] == all[j];
    assert forall j :: 0 <= j < k ==> SameNorm(os, j, k) == SameNorm(all, j, k);
    assert First(os, k) == First(all, k) && init[k] == ds[k];
  }

  ghost predicate ViewsEqualAfter(ops: seq<Op>, n: nat, model: string, hash: string)
    requires n <= |ops|
  {
    var st := Run(ops[..n]);
    LegacyView(st.markdown, model, hash) == StructuredView(st.deployments, model, hash)
  }

  /** After n appends m records are stored. */
  ghost predicate Stores(ops: seq<Op>, n: nat, m: nat)
    requires n <= |ops|
  {
    |Run(ops[..n]).deployments| == m
  }

  /** The two views of a printable scope agree after every append of a run exactly when every
      record it stored is calm. */
  lemma ViewsEqualThroughoutIff(ops: seq<Op>, model: string, hash: string)
    requires Printable(model, hash) && forall k :: 0 <= k < |ops| ==> PrintsSafely(ops[k])
    ensures var ds := Run(ops).deployments;
            (forall n :: 0 <= n <= |ops| ==> ViewsEqualAfter(ops, n, model, hash)) <==>
            (forall k :: 0 <= k < |ds| ==> Calm(ds, model, hash, k))
  {
    hide Run, PrintsSafely, Same, Calm, ViewsEqualAfter, Stores;
    var ds := Run(ops).deployments;
    SameThroughoutIff(ds, model, hash);
    if forall m :: 0 <= m <= |ds| ==> Same(ds[..m], model, hash) {
      forall n | 0 <= n <= |ops|
        ensures ViewsEqualAfter(ops, n, model, hash)
      {
        var m := EqualIsSame(ops, n, model, hash);
      }
    }
    if forall n :: 0 <= n <= |ops| ==> ViewsEqualAfter(ops, n, model, hash) {
      forall m | 0 <= m <= |ds|
        ensures Same(ds[..m], model, hash)
      {
        var n := StoredAfter(ops, m);
        var m' := EqualIsSame(ops, n, model, hash);
        SameCount(ops, n, m, m');
      }
    }
  }

  lemma SameCount(ops: seq<Op>, n: nat, m: nat, m': nat)
    requires n <= |ops| && Stores(ops, n, m) && Stores(ops, n, m')
    ensures m == m'
  {
  }

  lemma EqualIsSame(ops: seq<Op>, n: nat, model: string, hash: string) returns (m: nat)
    requires n <= |ops| && Printable(model, hash) && forall k :: 0 <= k < |ops| ==> PrintsSafely(ops[k])
    ensures m <= |Run(ops).deployments| && Stores(ops, n, m)
    ensures ViewsEqualAfter(ops, n, model, hash) <==> Same(Run(ops).deployments[..m], model, hash)
  {
    hide Run, PrintsSafely, StructuredView, LegacyView, Printable;
    m := |Run(ops[..n]).deployments|;
    StoreOnlyGrows(ops, n);
    assert Run(ops).deployments[..m] == Run(ops[..n]).deployments;
    LegacyViewIsStored(ops[..n], model, hash);
  }

  /** Every number of stored records is reached after some append. */
  lemma {:induction false} StoredAfter(ops: seq<Op>, m: nat) returns (n: nat)
    requires m <= |Run(ops).deployments|
    ensures n <= |ops| && Stores(ops, n, m)
  {
    hide Run, Accepts;
    if ops == [] {
      n := 0;
      EmptyRun();
      assert ops[..0] == [];
    } else if m == |Run(ops).deployments| {
      n := |ops|;
      assert ops[..n] == ops;
    } else {
      RunUnfolds(ops);
      n := StoredAfter(ops[..|ops| - 1], m);
      assert ops[..|ops| - 1][..n] == ops[..n];
    }
  }

  lemma EmptyRun()
    ensures Run([]).deployments == []
  {
    var none: seq<Op> := [];
    assert Run(none) == FRESH;
  }

  // ---------- runs in which the views differ ----------

  lemma OneAppendStores(op: Op)
    requires !op.blocked
    ensures Run([op]).deployments == [Stamped(op)]
  {
    hide DuplicateTrace, DuplicateClause, FormatEntry;
    var none: seq<Op> := [];
    assert [op][..0] == none && Run(none) == FRESH;
    RunUnfolds([op]);
    FreshHasNoTrace(op.record.traceId);
  }

  /** Already one append of a validated record to fresh files parts the views of its scope exactly
      when it is inactive with a clause, or active with a clause that is blank or not stripped. */
  lemma OneAppendDiffersIff(op: Op)
    requires !op.blocked && PrintsSafely(op) && op.record.passed && Printable(op.record.model, op.record.promptHash)
    ensures var st, r := Run([op]), op.record;
            LegacyView(st.markdown, r.model, r.promptHash) != StructuredView(st.deployments, r.model, r.promptHash) <==>
            if op.status == ACTIVE then Blank(r.clause) || !Stripped(r.clause) else !Blank(r.clause)
  {
    hide PrintsSafely, Run, Strip, Stripped, Norm, LegacyView, StructuredView, Dedup, Printable;
    var r := Stamped(op);
    OneAppendStores(op);
    LegacyViewIsStored([op], r.model, r.promptHash);
    EmptySame(r.model, r.promptHash);
    CalmStep([], r, r.model, r.promptHash);
    assert [] + [r] == [r];
    if !Blank(r.clause) {
      assert StoredOffers([r], r.model, r.promptHash)[0].Some?;
    }
  }
}
