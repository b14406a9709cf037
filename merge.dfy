/** The cross-merge step of the derivation search (memory.py, lines 49-58):
    every partial derivation built so far is combined with every derivation of
    the next body literal, literal by literal without repeating any, and the
    non-empty results are collected once each. */
module Merge {
  import opened Definitions

  /** One proof of a literal: the literals used, each once, in the order they
      were first reached. */
  type Derivation = seq<Literal>

  predicate NoDup<T(==)>(s: seq<T>) {
    forall i, j :: 0 <= i < j < |s| ==> s[i] != s[j]
  }

  /** `p` followed by the literals of `s` not already present, appended one at
      a time, so a literal repeated inside `s` is appended once. */
  function Extend(p: Derivation, s: Derivation): (r: Derivation)
    ensures |p| <= |r| && r[..|p|] == p
    ensures forall x :: x in r <==> x in p || x in s
    ensures NoDup(p) ==> NoDup(r)
    decreases |s|
  {
    if s == [] then p
    else
      var m := Extend(p, s[..|s| - 1]);
      var x := s[|s| - 1];
      assert s == s[..|s| - 1] + [x];
      if x in m then m else m + [x]
  }

  /** Reference definition of what Extend appends: the literals of `s` that
      are not in `p`, each taken at its first occurrence in `s`, in the order
      of `s`. */
  function Fresh(p: Derivation, s: Derivation): Derivation
    decreases |s|
  {
    if s == [] then []
    else
      var x := s[|s| - 1];
      Fresh(p, s[..|s| - 1]) + if x in p || x in s[..|s| - 1] then [] else [x]
  }

  lemma FreshElements(p: Derivation, s: Derivation)
    ensures forall x :: x in Fresh(p, s) <==> x in s && x !in p
    decreases |s|
  {
    if s != [] {
      FreshElements(p, s[..|s| - 1]);
      assert s == s[..|s| - 1] + [s[|s| - 1]];
    }
  }

  /** A merged derivation is the old partial followed by exactly the new
      literals of the sub-derivation, in their original order. */
  lemma {:induction false} ExtendAppendsFresh(p: Derivation, s: Derivation)
    ensures Extend(p, s) == p + Fresh(p, s)
    decreases |s|
  {
    if s != [] {
      var s' := s[..|s| - 1];
      var x := s[|s| - 1];
      ExtendAppendsFresh(p, s');
      FreshElements(p, s');
      assert x in Extend(p, s') <==> x in p || x in s';
    }
  }

  /** With nothing to skip, Fresh keeps a duplicate-free sequence whole. */
  lemma {:induction false} FreshOfNoDup(s: Derivation)
    requires NoDup(s)
    ensures Fresh([], s) == s
    decreases |s|
  {
    if s != [] {
      var s' := s[..|s| - 1];
      assert NoDup(s');
      FreshOfNoDup(s');
      assert s[|s| - 1] !in s';
      assert s == s' + [s[|s| - 1]];
    }
  }

  /** The candidates built from one partial `w`, one per sub-derivation. */
  function Row(w: Derivation, ps: seq<Derivation>): (r: seq<Derivation>)
    ensures |r| == |ps|
    ensures forall k :: 0 <= k < |ps| ==> r[k] == Extend(w, ps[k])
    decreases |ps|
  {
    if ps == [] then []
    else Row(w, ps[..|ps| - 1]) + [Extend(w, ps[|ps| - 1])]
  }

  lemma RowMembers(w: Derivation, ps: seq<Derivation>)
    ensures forall c :: c in Row(w, ps) <==> exists p :: p in ps && c == Extend(w, p)
  {
    forall c | c in Row(w, ps) ensures exists p :: p in ps && c == Extend(w, p) {
      var k :| 0 <= k < |ps| && Row(w, ps)[k] == c;
      assert ps[k] in ps;
    }
    forall c | exists p :: p in ps && c == Extend(w, p) ensures c in Row(w, ps) {
      var p :| p in ps && c == Extend(w, p);
      var k :| 0 <= k < |ps| && ps[k] == p;
      assert Row(w, ps)[k] == c;
    }
  }

  lemma MulSucc(a: nat, b: nat)
    ensures (a + 1) * b == a * b + b
  {
  }

  /** All candidates, partial by partial and, within a partial, sub-derivation
      by sub-derivation: the order of the two nested loops. */
  function Candidates(ws: seq<Derivation>, ps: seq<Derivation>): seq<Derivation>
    decreases |ws|
  {
    if ws == [] then []
    else Candidates(ws[..|ws| - 1], ps) + Row(ws[|ws| - 1], ps)
  }

  lemma {:induction false} CandidatesLength(ws: seq<Derivation>, ps: seq<Derivation>)
    ensures |Candidates(ws, ps)| == |ws| * |ps|
    decreases |ws|
  {
    if ws != [] {
      CandidatesLength(ws[..|ws| - 1], ps);
      MulSucc(|ws| - 1, |ps|);
    }
  }

  lemma {:induction false} CandidatesMembers(ws: seq<Derivation>, ps: seq<Derivation>)
    ensures forall c :: c in Candidates(ws, ps) <==> IsMerge(c, ws, ps)
    decreases |ws|
  {
    if ws != [] {
      var ws' := ws[..|ws| - 1];
      var w := ws[|ws| - 1];
      assert ws == ws' + [w];
      CandidatesMembers(ws', ps);
      RowMembers(w, ps);
      forall c | c in Candidates(ws, ps) ensures IsMerge(c, ws, ps) {
        if c in Candidates(ws', ps) {
          var w0, p0 :| w0 in ws' && p0 in ps && c == Extend(w0, p0);
          assert w0 in ws;
        } else {
          assert c in Row(w, ps);
        }
      }
      forall c | IsMerge(c, ws, ps) ensures c in Candidates(ws, ps) {
        var w0, p0 :| w0 in ws && p0 in ps && c == Extend(w0, p0);
        if w0 in ws' {
          assert c in Candidates(ws', ps);
        } else {
          assert w0 == w;
          assert c in Row(w, ps);
        }
      }
    }
  }

  /** Keeps the non-empty candidates, each once, in the order first produced. */
  function Distinct(cs: seq<Derivation>): (r: seq<Derivation>)
    ensures NoDup(r)
    ensures forall c :: c in r <==> c in cs && c != []
    ensures |r| <= |cs|
    decreases |cs|
  {
    if cs == [] then []
    else
      var r := Distinct(cs[..|cs| - 1]);
      var c := cs[|cs| - 1];
      assert cs == cs[..|cs| - 1] + [c];
      if c != [] && c !in r then r + [c] else r
  }

  /** `c` is some partial of `ws` extended by some derivation of `ps`. */
  ghost predicate IsMerge(c: Derivation, ws: seq<Derivation>, ps: seq<Derivation>) {
    exists w, p :: w in ws && p in ps && c == Extend(w, p)
  }

  /** The new working set after one body literal: every non-empty merge of a
      partial with a sub-derivation, each once. */
  function CrossMerge(ws: seq<Derivation>, ps: seq<Derivation>): (r: seq<Derivation>)
    ensures NoDup(r) && [] !in r
    ensures (forall w :: w in ws ==> NoDup(w)) ==> forall c :: c in r ==> NoDup(c)
  {
    CrossMergeMembers(ws, ps);
    Distinct(Candidates(ws, ps))
  }

  /** Exactly the non-empty merges of a partial with a sub-derivation are
      kept. */
  lemma CrossMergeMembers(ws: seq<Derivation>, ps: seq<Derivation>)
    ensures forall c :: c in Distinct(Candidates(ws, ps)) <==> c != [] && IsMerge(c, ws, ps)
  {
    CandidatesMembers(ws, ps);
  }

  /** At most one new partial per pair, so an empty side (no partial, or a
      body literal with the empty list of derivations) empties the working
      set. */
  lemma CrossMergeBound(ws: seq<Derivation>, ps: seq<Derivation>)
    ensures |CrossMerge(ws, ps)| <= |ws| * |ps|
    ensures ws == [] || ps == [] ==> CrossMerge(ws, ps) == []
  {
    CandidatesLength(ws, ps);
  }

  /** Merging the first body literal into the single empty partial keeps its
      derivations (at most once each). */
  lemma FirstLiteralMerge(ps: seq<Derivation>)
    requires forall p :: p in ps ==> NoDup(p)
    ensures |CrossMerge([[]], ps)| <= |ps|
    ensures forall c :: c in CrossMerge([[]], ps) ==> c in ps
  {
    CrossMergeMembers([[]], ps);
    CrossMergeBound([[]], ps);
    forall c | c in CrossMerge([[]], ps) ensures c in ps {
      var w, p :| w in [[]] && p in ps && c == Extend(w, p);
      ExtendAppendsFresh([], p);
      FreshOfNoDup(p);
    }
  }

  lemma DistinctSnoc(cs: seq<Derivation>, c: Derivation)
    ensures Distinct(cs + [c]) == if c != [] && c !in Distinct(cs) then Distinct(cs) + [c] else Distinct(cs)
  {
    assert (cs + [c])[..|cs|] == cs;
  }

  lemma RowSnoc(w: Derivation, ps: seq<Derivation>, b: nat)
    requires b < |ps|
    ensures Row(w, ps[..b + 1]) == Row(w, ps[..b]) + [Extend(w, ps[b])]
  {
    assert ps[..b + 1][..b] == ps[..b];
  }

  lemma CandidatesSnoc(ws: seq<Derivation>, ps: seq<Derivation>, a: nat)
    requires a < |ws|
    ensures Candidates(ws[..a + 1], ps) == Candidates(ws[..a], ps) + Row(ws[a], ps)
  {
    assert ws[..a + 1][..a] == ws[..a];
  }

  /** One turn of the inner merge loop: the candidate of the next
      sub-derivation is kept unless it is empty or already kept. */
  lemma InnerStep(done: seq<Derivation>, w: Derivation, ps: seq<Derivation>, b: nat)
    requires b < |ps|
    ensures Distinct(done + Row(w, ps[..b + 1])) ==
              var kept := Distinct(done + Row(w, ps[..b]));
              var c := Extend(w, ps[b]);
              if c != [] && c !in kept then kept + [c] else kept
  {
    RowSnoc(w, ps, b);
    var before := done + Row(w, ps[..b]);
    assert done + Row(w, ps[..b + 1]) == before + [Extend(w, ps[b])];
    DistinctSnoc(before, Extend(w, ps[b]));
  }
}
