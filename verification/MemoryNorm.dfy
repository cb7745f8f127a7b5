/** What two clauses must share to count as the same: their words, up to letter case. */
module MemoryNorm {
  import opened Common
  import opened MemoryText
  import opened MemoryFormat
  import opened MemoryIndex

  // ---------- words ----------

  predicate AllSpace(s: string) {
    forall k :: 0 <= k < |s| ==> IsSpace(s[k])
  }

  /** A non-empty text without white space. */
  predicate IsWord(s: string) {
    s != "" && forall k :: 0 <= k < |s| ==> !IsSpace(s[k])
  }

  predicate AllWords(ws: seq<string>) {
    forall k :: 0 <= k < |ws| ==> IsWord(ws[k])
  }

  lemma {:induction false} LStripOver(a: string, rest: string)
    ensures LStrip(a + rest) == if LStrip(a) == "" then LStrip(rest) else LStrip(a) + rest
  {
    hide IsSpace;
    if a == "" {
      assert a + rest == rest;
    } else if IsSpace(a[0]) {
      assert (a + rest)[1..] == a[1..] + rest;
      LStripOver(a[1..], rest);
    }
  }

  lemma {:induction false} LStripSpaces(s: string)
    requires AllSpace(s)
    ensures LStrip(s) == ""
  {
    hide IsSpace;
    if s != "" { LStripSpaces(s[1..]); }
  }

  lemma {:induction false} WordLengthOver(t: string, rest: string)
    requires rest == "" || IsSpace(rest[0])
    ensures WordLength(t + rest) == WordLength(t)
  {
    hide IsSpace;
    if t == "" {
      assert t + rest == rest;
    } else if !IsSpace(t[0]) {
      assert (t + rest)[1..] == t[1..] + rest;
      WordLengthOver(t[1..], rest);
    }
  }

  lemma WordsOfStripped(s: string)
    ensures Words(LStrip(s)) == Words(s)
  {
    LStripOver(s, "");
    assert s + "" == s && LStrip(s) + "" == LStrip(s);
  }

  lemma WordsStep(s: string)
    ensures var t := LStrip(s);
            Words(s) == if t == "" then [] else [t[..WordLength(t)]] + Words(t[WordLength(t)..])
  {
  }

  /** White space of any kind and length separates words, and nothing else of it is left. */
  lemma {:induction false} WordsGap(a: string, gap: string, b: string)
    requires gap != "" && AllSpace(gap)
    ensures Words(a + gap + b) == Words(a) + Words(b)
    decreases |a|
  {
    hide IsSpace, Words, LStrip, WordLength;
    var t := LStrip(a);
    assert a + gap + b == a + (gap + b);
    LStripOver(a, gap + b);
    LStripSpaces(gap);
    LStripOver(gap, b);
    WordsStep(a);
    if t == "" {
      WordsOfStripped(b);
      WordsOfStripped(a + gap + b);
    } else {
      var n := WordLength(t);
      WordLengthOver(t, gap + b);
      WordsStep(a + gap + b);
      assert (t + (gap + b))[..n] == t[..n] && (t + (gap + b))[n..] == t[n..] + gap + b;
      SomeWord(t);
      WordsGap(t[n..], gap, b);
    }
  }

  lemma SomeWord(t: string)
    requires t != "" && !IsSpace(t[0])
    ensures WordLength(t) > 0
  {
  }

  lemma {:induction false} WholeWord(w: string)
    requires IsWord(w)
    ensures WordLength(w) == |w| && Words(w) == [w]
  {
    hide IsSpace;
    if |w| > 1 { WholeWord(w[1..]); }
    assert LStrip(w) == w && w[..|w|] == w && w[|w|..] == "";
  }

  lemma NoWords(s: string)
    ensures Words(s) == [] <==> AllSpace(s)
  {
    if AllSpace(s) { LStripSpaces(s); }
    if Words(s) == [] { OnlySpaces(s); }
  }

  lemma {:induction false} OnlySpaces(s: string)
    requires LStrip(s) == ""
    ensures AllSpace(s)
  {
    hide IsSpace;
    if s != "" { OnlySpaces(s[1..]); }
  }

  lemma {:induction false} WordIsClean(t: string)
    ensures forall k :: 0 <= k < WordLength(t) ==> !IsSpace(t[k])
  {
    hide IsSpace;
    if t != "" && !IsSpace(t[0]) { WordIsClean(t[1..]); }
  }

  lemma {:induction false} WordsAreWords(s: string)
    ensures AllWords(Words(s))
    decreases |s|
  {
    hide IsSpace;
    var t := LStrip(s);
    if t != "" {
      WordIsClean(t);
      WordsAreWords(t[WordLength(t)..]);
    }
  }

  /** Words joined by single spaces are read back, so that no two lists of words join to one text. */
  lemma {:induction false} JoinedWords(ws: seq<string>)
    requires AllWords(ws)
    ensures Words(JoinWords(ws)) == ws
  {
    hide IsSpace, IsWord, Words;
    if ws == [] {
      NoWords("");
    } else if |ws| == 1 {
      WholeWord(ws[0]);
    } else {
      OneSpace();
      WholeWord(ws[0]);
      JoinedWords(ws[1..]);
      WordsGap(ws[0], " ", JoinWords(ws[1..]));
    }
  }

  lemma OneSpace()
    ensures AllSpace(" ")
  {
  }

  // ---------- letter case ----------

  /** One character, or an ASCII capital and its small letter. */
  predicate SameLetter(x: char, y: char) {
    x == y || ('A' <= x <= 'Z' && y as int == x as int + 32) || ('A' <= y <= 'Z' && x as int == y as int + 32)
  }

  predicate SameWord(u: string, v: string) {
    |u| == |v| && forall k :: 0 <= k < |u| ==> SameLetter(u[k], v[k])
  }

  /** The same words in the same order, up to letter case. */
  predicate SameWords(a: string, b: string) {
    |Words(a)| == |Words(b)| && forall k :: 0 <= k < |Words(a)| ==> SameWord(Words(a)[k], Words(b)[k])
  }

  lemma SameWordIff(u: string, v: string)
    ensures SameWord(u, v) <==> Lower(u) == Lower(v)
  {
    if Lower(u) == Lower(v) {
      assert |u| == |Lower(u)| == |v|;
      forall k | 0 <= k < |u|
        ensures SameLetter(u[k], v[k])
      {
        assert Lower(u)[k] == Lower(v)[k];
      }
    }
  }

  lemma {:induction false} LowerWordLength(t: string)
    ensures WordLength(Lower(t)) == WordLength(t)
  {
    hide IsSpace;
    if t != "" && !IsSpace(t[0]) {
      LowerWordLength(t[1..]);
      assert Lower(t)[1..] == Lower(t[1..]);
    }
  }

  lemma {:induction false} LowerWords(s: string)
    ensures |Words(Lower(s))| == |Words(s)|
    ensures forall k :: 0 <= k < |Words(s)| ==> Words(Lower(s))[k] == Lower(Words(s)[k])
    decreases |s|
  {
    hide IsSpace;
    var t := LStrip(s);
    LowerLStrip(s);
    if t != "" {
      var n := WordLength(t);
      LowerWordLength(t);
      assert Lower(t)[..n] == Lower(t[..n]) && Lower(t)[n..] == Lower(t[n..]);
      LowerWords(t[n..]);
    }
  }

  /** Clauses are compared as equal exactly when they have the same words in the same order up to
      letter case. */
  lemma NormEqualIff(a: string, b: string)
    ensures Norm(a) == Norm(b) <==> SameWords(a, b)
  {
    hide Words, Lower, SameWord, IsSpace;
    var u, v := Words(Lower(a)), Words(Lower(b));
    WordsAreWords(Lower(a));
    WordsAreWords(Lower(b));
    JoinedWords(u);
    JoinedWords(v);
    LowerWords(a);
    LowerWords(b);
    forall k | 0 <= k < |u| && k < |v|
      ensures SameWord(Words(a)[k], Words(b)[k]) <==> u[k] == v[k]
    {
      SameWordIff(Words(a)[k], Words(b)[k]);
    }
    if SameWords(a, b) {
      assert u == v;
    }
  }

  /** Re-spacing a clause anywhere between two parts that are spaced already does not change it. */
  lemma NormGap(a: string, gap: string, b: string)
    requires gap != "" && AllSpace(gap)
    ensures Norm(a + gap + b) == Norm(a + " " + b)
  {
    hide Words, IsSpace, SameLetter;
    OneSpace();
    WordsGap(a, gap, b);
    WordsGap(a, " ", b);
    NormEqualIff(a + gap + b, a + " " + b);
    forall k | 0 <= k < |Words(a + gap + b)|
      ensures SameWord(Words(a + gap + b)[k], Words(a + " " + b)[k])
    {
      SameWordIff(Words(a + gap + b)[k], Words(a + " " + b)[k]);
    }
  }

  // ---------- a clause that is stored already ----------

  lemma {:induction false} ScopedHas(ds: seq<Record>, model: string, hash: string, k: nat)
    requires k < |ds| && Scoped(ds[k], model, hash)
    ensures ds[k].clause in ScopedClauses(ds, model, hash)
  {
    if k < |ds| - 1 { ScopedHas(ds[..|ds| - 1], model, hash, k); }
  }

  /** After any run that stored an active clause of a scope, appending a clause with the same words up
      to letter case and spacing prints nothing and leaves both views of every scope as they were. */
  lemma RepeatChangesNothing(ops: seq<Op>, op: Op, k: nat, model: string, hash: string)
    requires k < |Run(ops).deployments|
    requires var r := Run(ops).deployments[k]; Scoped(r, op.record.model, op.record.promptHash) && SameWords(r.clause, op.record.clause)
    requires Words(op.record.clause) != []
    ensures Run(ops + [op]).markdown == Run(ops).markdown
    ensures StructuredView(Run(ops + [op]).deployments, model, hash) == StructuredView(Run(ops).deployments, model, hash)
    ensures LegacyView(Run(ops + [op]).markdown, model, hash) == LegacyView(Run(ops).markdown, model, hash)
  {
    hide Run, Words, Norm, Dedup, FormatEntry, DuplicateTrace, Strip;
    var ds, r := Run(ops).deployments, Stamped(op);
    assert (ops + [op])[..|ops|] == ops;
    RunUnfolds(ops + [op]);
    NormEqualIff(ds[k].clause, r.clause);
    NoWordsNorm(r.clause);
    ScopedHas(ds, r.model, r.promptHash, k);
    DedupKeepsNorms(ScopedClauses(ds, r.model, r.promptHash), r.clause);
    var scoped := ScopedClauses(ds, model, hash);
    assert (ds + [r])[..|ds|] == ds && scoped + [] == scoped;
    DedupSnoc(scoped, r.clause);
  }

  predicate HasSameWords(clauses: seq<string>, clause: string) {
    exists k :: 0 <= k < |clauses| && SameWords(clauses[k], clause)
  }

  lemma NormInIff(clause: string, clauses: seq<string>)
    ensures NormIn(clause, clauses) <==> HasSameWords(clauses, clause)
  {
    hide Norm, SameWords;
    forall k | 0 <= k < |clauses|
      ensures Norm(clauses[k]) == Norm(clause) <==> SameWords(clauses[k], clause)
    {
      NormEqualIff(clauses[k], clause);
    }
  }

  lemma NoWordsNorm(s: string)
    ensures Norm(s) == "" <==> Words(s) == []
  {
    hide IsSpace, Words, Norm, Strip;
    NormEmpty(s);
    NoWords(s);
    if Strip(s) == "" { StrippedSpaces(s); }
    if AllSpace(s) { LStripSpaces(s); NothingStripped(s); }
  }

  lemma NothingStripped(s: string)
    requires LStrip(s) == ""
    ensures Strip(s) == ""
  {
  }

  /** What an append that is not refused does after any run: it stores the record with its status, and
      prints it unless its clause has words and a clause of its scope has the same. */
  lemma AppendPrints(ops: seq<Op>, op: Op)
    requires !op.blocked && !HasTrace(Run(ops).deployments, op.record.traceId)
    ensures var before, after, r := Run(ops), Run(ops + [op]), op.record.(status := Some(op.status));
            && after.deployments == before.deployments + [r]
            && after.markdown ==
                 if Words(r.clause) != [] && HasSameWords(ScopedClauses(before.deployments, r.model, r.promptHash), r.clause)
                 then before.markdown else before.markdown + FormatEntry(Entry(r, op.timestamp))
  {
    hide Run, Words, Norm, Dedup, FormatEntry, DuplicateTrace, HasSameWords, NormIn, HasTrace;
    var before, r := Run(ops), Stamped(op);
    assert (ops + [op])[..|ops|] == ops;
    RunUnfolds(ops + [op]);
    TracesStayUnique(ops, op);
    ViewBeforeAppend(ops, r.model, r.promptHash);
    NoWordsNorm(r.clause);
    var scoped := ScopedClauses(before.deployments, r.model, r.promptHash);
    DedupKeepsNorms(scoped, r.clause);
    NormInIff(r.clause, scoped);
  }

  lemma StrippedSpaces(s: string)
    requires Strip(s) == ""
    ensures AllSpace(s)
  {
    hide IsSpace;
    if LStrip(s) != "" { RStripKeepsHead(LStrip(s)); }
    OnlySpaces(s);
  }
}
