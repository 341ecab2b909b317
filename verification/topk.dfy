/**
  * The bounded candidate list `lookup` (lookup.py) keeps while it scans the
  * library: filled in arrival order, then refreshed by a stable sort and a
  * truncation whenever a newcomer beats some kept candidate.
  */
module TopK {
  import opened Seqs

  /** One library spectrum with its score: the `[spectrum, mse]` pair. */
  datatype Candidate = Candidate(spectrum: seq<real>, score: real)

  predicate SortedByScore(s: seq<Candidate>)
  {
    forall i, j :: 0 <= i < j < |s| ==> s[i].score <= s[j].score
  }

  /** The entries of s whose score is v, in their order in s. */
  function WithScore(s: seq<Candidate>, v: real): seq<Candidate>
  {
    if |s| == 0 then []
    else WithScore(s[..|s| - 1], v) + (if s[|s| - 1].score == v then [s[|s| - 1]] else [])
  }

  lemma {:induction false} WithScoreAppend(s: seq<Candidate>, c: Candidate, v: real)
    ensures WithScore(s + [c], v) == WithScore(s, v) + (if c.score == v then [c] else [])
  {
    assert (s + [c])[..|s + [c]| - 1] == s;
  }

  /** Stable insertion into a sorted list: c goes after every entry whose score is not greater. */
  function InsertByScore(s: seq<Candidate>, c: Candidate): (r: seq<Candidate>)
    requires SortedByScore(s)
    ensures |r| == |s| + 1
    ensures SortedByScore(r)
    ensures multiset(r) == multiset(s) + multiset{c}
    decreases |s|
  {
    if |s| == 0 || s[|s| - 1].score <= c.score then s + [c]
    else
      var init, last := s[..|s| - 1], s[|s| - 1];
      var r' := InsertByScore(init, c);
      assert s == init + [last];
      InsertBelowLast(init, last, c, r');
      r' + [last]
  }

  lemma InsertIntoEmpty(s: seq<Candidate>, c: Candidate)
    requires s == []
    ensures InsertByScore(s, c) == [c]
  {
  }

  /** Inserting below a greater last entry leaves that entry last and inserts into the rest. */
  lemma InsertBeforeLast(s: seq<Candidate>, c: Candidate)
    requires SortedByScore(s) && |s| > 0 && c.score < s[|s| - 1].score
    ensures SortedByScore(s[..|s| - 1])
    ensures InsertByScore(s, c) == InsertByScore(s[..|s| - 1], c) + [s[|s| - 1]]
  {
  }

  /** The step of InsertByScore: c goes in before a last entry of greater score, which stays last. */
  lemma InsertBelowLast(init: seq<Candidate>, last: Candidate, c: Candidate, r': seq<Candidate>)
    requires SortedByScore(init + [last]) && c.score < last.score
    requires SortedByScore(r') && multiset(r') == multiset(init) + multiset{c}
    ensures SortedByScore(r' + [last])
    ensures multiset(r' + [last]) == multiset(init + [last]) + multiset{c}
  {
    forall i | 0 <= i < |r'|
      ensures r'[i].score <= last.score
    {
      assert r'[i] in multiset(r');
      if r'[i] != c {
        assert r'[i] in multiset(init);
        assert r'[i] in init;
        var j :| 0 <= j < |init| && init[j] == r'[i];
        assert (init + [last])[j] == init[j] && (init + [last])[|init|] == last;
      }
    }
  }

  /** When one of two appended pieces is empty, their order does not matter. */
  lemma SwapDisjoint<T>(w: seq<T>, wx: seq<T>, x: seq<T>, y: seq<T>)
    requires wx == w + x && (x == [] || y == [])
    ensures wx + y == (w + y) + x
  {
    if x == [] {
      assert wx == w && (w + y) + x == w + y;
    } else {
      assert wx + y == wx && (w + y) + x == w + x;
    }
  }

  /** Inserting after the equal scores keeps each score class in its order. */
  lemma {:induction false} InsertByScoreStable(s: seq<Candidate>, c: Candidate, v: real)
    requires SortedByScore(s)
    ensures WithScore(InsertByScore(s, c), v) == WithScore(s, v) + (if c.score == v then [c] else [])
    decreases |s|
  {
    if |s| == 0 || s[|s| - 1].score <= c.score {
      WithScoreAppend(s, c, v);
    } else {
      var init, last := s[..|s| - 1], s[|s| - 1];
      assert s == init + [last];
      assert SortedByScore(init);
      var extra := if c.score == v then [c] else [];
      var tail := if last.score == v then [last] else [];
      InsertByScoreStable(init, c, v);
      assert InsertByScore(s, c) == InsertByScore(init, c) + [last];
      WithScoreAppend(InsertByScore(init, c), last, v);
      WithScoreAppend(init, last, v);
      // c scores below last, so at most one of them has score v
      assert extra == [] || tail == [];
      SwapDisjoint(WithScore(init, v), WithScore(InsertByScore(init, c), v), extra, tail);
    }
  }

  /** `list.sort(key=score)`: an insertion sort, which is stable like Python's. */
  function SortByScore(s: seq<Candidate>): (r: seq<Candidate>)
    ensures |r| == |s|
    ensures SortedByScore(r)
    ensures multiset(r) == multiset(s)
    decreases |s|
  {
    if |s| == 0 then []
    else
      assert s == s[..|s| - 1] + [s[|s| - 1]];
      InsertByScore(SortByScore(s[..|s| - 1]), s[|s| - 1])
  }

  /** The sort is stable: entries of equal score keep their relative order. */
  lemma {:induction false} SortByScoreStable(s: seq<Candidate>, v: real)
    ensures WithScore(SortByScore(s), v) == WithScore(s, v)
    decreases |s|
  {
    if |s| > 0 {
      var init, last := s[..|s| - 1], s[|s| - 1];
      SortByScoreStable(init, v);
      InsertByScoreStable(SortByScore(init), last, v);
    }
  }

  /**
    * The inner `for candidate in candidates` loop: whether some kept
    * candidate has a strictly greater score than `score`.
    */
  function AnyWorse(cands: seq<Candidate>, score: real): (r: bool)
    ensures r <==> exists j :: 0 <= j < |cands| && cands[j].score > score
    decreases |cands|
  {
    if |cands| == 0 then false
    else if cands[0].score > score then true
    else
      var r := AnyWorse(cands[1..], score);
      assert forall j :: 1 <= j < |cands| ==> cands[j] == cands[1..][j - 1];
      r
  }

  /** The largest list size a candidate count allows (a non-positive count keeps nothing). */
  function Capacity(k: int): nat
  {
    Max(k, 0)
  }

  /**
    * One line's effect on the candidate list: appended while fewer than k are
    * held; afterwards admitted only if some candidate scores strictly worse,
    * in which case the list is sorted and cut back to k.
    */
  function Admit(cands: seq<Candidate>, c: Candidate, k: int): (r: seq<Candidate>)
    requires |cands| <= Capacity(k)
    ensures |r| <= Capacity(k)
  {
    if |cands| < k then cands + [c]
    else if AnyWorse(cands, c.score) then SortByScore(cands + [c])[..k]
    else cands
  }

  /** A full list rejects a newcomer that no kept candidate scores worse than, ties included. */
  lemma AdmitRejectsTies(cands: seq<Candidate>, c: Candidate, k: int)
    requires |cands| == Capacity(k)
    requires forall j :: 0 <= j < |cands| ==> cands[j].score <= c.score
    ensures Admit(cands, c, k) == cands
  {
  }

  /**
    * A full list that admits a newcomer keeps it, ends sorted, keeps its size,
    * and loses exactly one entry whose score is maximal among the old entries.
    */
  lemma AdmitReplaces(cands: seq<Candidate>, c: Candidate, k: int)
    requires |cands| == Capacity(k)
    requires exists j :: 0 <= j < |cands| && cands[j].score > c.score
    ensures var r := Admit(cands, c, k);
      && |r| == k
      && SortedByScore(r)
      && c in r
      && exists d :: d in cands
           && (forall j :: 0 <= j < |cands| ==> cands[j].score <= d.score)
           && multiset(r) + multiset{d} == multiset(cands) + multiset{c}
  {
    var s := SortByScore(cands + [c]);
    var r, d := s[..k], s[k];
    assert AnyWorse(cands, c.score);
    assert Admit(cands, c, k) == r;
    SplitLast(s);
    assert multiset(s) == multiset(cands) + multiset{c};
    MaxOfSorted(s, cands);
    var w :| 0 <= w < |cands| && cands[w].score > c.score;
    assert d != c;
    assert d in multiset(cands);
    InInit(s, c);
    assert |r| == k && SortedByScore(r) && c in r;
    assert d in cands && multiset(r) + multiset{d} == multiset(cands) + multiset{c};
  }

  /** A non-empty sequence is its prefix and its last entry, as multisets too. */
  lemma SplitLast<T>(s: seq<T>)
    requires |s| > 0
    ensures s == s[..|s| - 1] + [s[|s| - 1]]
    ensures multiset(s) == multiset(s[..|s| - 1]) + multiset{s[|s| - 1]}
  {
    assert s == s[..|s| - 1] + [s[|s| - 1]];
  }

  /** The last entry of a sorted sequence scores at least as much as anything drawn from it. */
  lemma MaxOfSorted(s: seq<Candidate>, xs: seq<Candidate>)
    requires SortedByScore(s) && |s| > 0 && multiset(xs) <= multiset(s)
    ensures forall j :: 0 <= j < |xs| ==> xs[j].score <= s[|s| - 1].score
  {
    SortedBelowLast(s);
    forall j | 0 <= j < |xs|
      ensures xs[j].score <= s[|s| - 1].score
    {
      assert xs[j] in multiset(xs);
      assert xs[j] in s;
    }
  }

  /** An entry of s other than its last lies in the prefix without it. */
  lemma InInit<T>(s: seq<T>, x: T)
    requires x in multiset(s) && |s| > 0 && x != s[|s| - 1]
    ensures x in s[..|s| - 1]
  {
    SplitLast(s);
    assert x in multiset(s[..|s| - 1]);
  }

  /**
    * `kept` holds the candidates with the smallest scores among `seen`: it is
    * drawn from seen, has min(k, |seen|) entries, and none of its scores
    * exceeds the score of any candidate left out.
    */
  ghost predicate KeepsSmallest(kept: seq<Candidate>, seen: seq<Candidate>, k: int)
  {
    && multiset(kept) <= multiset(seen)
    && |kept| == Min(Capacity(k), |seen|)
    && forall x, y :: x in multiset(kept) && y in multiset(seen) - multiset(kept) ==> x.score <= y.score
  }

  /** Swapping d out for c keeps a sub-multiset of seen inside seen plus c. */
  lemma SwapWithin<T>(kept: multiset<T>, seen: multiset<T>, r: multiset<T>, c: T, d: T)
    requires kept <= seen
    requires r + multiset{d} == kept + multiset{c}
    ensures r <= seen + multiset{c}
  {
    forall y: T
      ensures r[y] <= (seen + multiset{c})[y]
    {
      assert (r + multiset{d})[y] == (kept + multiset{c})[y];
    }
  }

  /** What the swap leaves out, other than d, was already left out before it. */
  lemma SwapRejected<T>(kept: multiset<T>, seen: multiset<T>, r: multiset<T>, c: T, d: T, y: T)
    requires r + multiset{d} == kept + multiset{c}
    requires y in (seen + multiset{c}) - r
    requires y != d
    ensures y in seen - kept
  {
    assert (r + multiset{d})[y] == (kept + multiset{c})[y];
  }

  /** Every entry of a sorted list scores at most its last entry. */
  lemma SortedBelowLast(s: seq<Candidate>)
    requires SortedByScore(s) && |s| > 0
    ensures forall x :: x in s ==> x.score <= s[|s| - 1].score
  {
    forall x | x in s
      ensures x.score <= s[|s| - 1].score
    {
      var i :| 0 <= i < |s| && s[i] == x;
    }
  }

  /**
    * Swapping a maximal d out for a newcomer c that beats some kept entry
    * keeps the list the smallest-scoring choice.
    */
  lemma SwapKeepsSmallest(cands: seq<Candidate>, seen: seq<Candidate>, c: Candidate, r: seq<Candidate>, d: Candidate, k: int)
    requires KeepsSmallest(cands, seen, k)
    requires |cands| == k && |r| == k
    requires multiset(r) + multiset{d} == multiset(cands) + multiset{c}
    requires forall x :: x in r ==> x.score <= d.score
    requires exists j :: 0 <= j < |cands| && cands[j].score > c.score
    ensures KeepsSmallest(r, seen + [c], k)
  {
    assert multiset(seen + [c]) == multiset(seen) + multiset{c};
    SwapWithin(multiset(cands), multiset(seen), multiset(r), c, d);
    var w :| 0 <= w < |cands| && cands[w].score > c.score;
    forall x: Candidate, y: Candidate | x in multiset(r) && y in multiset(seen + [c]) - multiset(r)
      ensures x.score <= y.score
    {
      assert x in r;
      if y != d {
        SwapRejected(multiset(cands), multiset(seen), multiset(r), c, d, y);
        assert x in multiset(cands) + multiset{c};
        if x == c {
          assert cands[w] in multiset(cands);
        }
      }
    }
  }

  /** The newcomer is admitted and the largest of the sorted list is dropped. */
  lemma ReplaceKeepsSmallest(cands: seq<Candidate>, seen: seq<Candidate>, c: Candidate, k: int)
    requires KeepsSmallest(cands, seen, k)
    requires |cands| == k
    requires exists j :: 0 <= j < |cands| && cands[j].score > c.score
    ensures KeepsSmallest(SortByScore(cands + [c])[..k], seen + [c], k)
  {
    var s := SortByScore(cands + [c]);
    var r, d := s[..k], s[k];
    assert s == r + [d];
    assert multiset(s) == multiset(cands) + multiset{c};
    assert multiset(s) == multiset(r) + multiset{d};
    SortedBelowLast(s);
    SwapKeepsSmallest(cands, seen, c, r, d, k);
  }

  /** A newcomer that beats nobody leaves the list and its property untouched. */
  lemma RejectKeepsSmallest(cands: seq<Candidate>, seen: seq<Candidate>, c: Candidate, k: int)
    requires KeepsSmallest(cands, seen, k)
    requires |cands| == Capacity(k)
    requires forall j :: 0 <= j < |cands| ==> cands[j].score <= c.score
    ensures KeepsSmallest(cands, seen + [c], k)
  {
    assert multiset(seen + [c]) == multiset(seen) + multiset{c};
    forall x: Candidate, y: Candidate | x in multiset(cands) && y in multiset(seen + [c]) - multiset(cands)
      ensures x.score <= y.score
    {
      assert x in cands;
      if y != c {
        assert y in multiset(seen) - multiset(cands);
      }
    }
  }

  /**
    * Admitting one more line keeps the list the smallest-scoring choice among
    * everything seen. While the list is still filling it equals what was seen.
    */
  lemma AdmitKeepsSmallest(cands: seq<Candidate>, seen: seq<Candidate>, c: Candidate, k: int)
    requires KeepsSmallest(cands, seen, k)
    requires |seen| <= Capacity(k) ==> cands == seen
    ensures |cands| <= Capacity(k)
    ensures KeepsSmallest(Admit(cands, c, k), seen + [c], k)
    ensures |seen + [c]| <= Capacity(k) ==> Admit(cands, c, k) == seen + [c]
  {
    if |cands| < k {
      assert cands == seen;
    } else if AnyWorse(cands, c.score) {
      ReplaceKeepsSmallest(cands, seen, c, k);
    } else {
      RejectKeepsSmallest(cands, seen, c, k);
    }
  }

  /** A full list that rejects or replaces stays sorted or stays the arrival-order prefix. */
  lemma AdmitOrder(cands: seq<Candidate>, seen: seq<Candidate>, c: Candidate, k: int)
    requires |cands| == Min(Capacity(k), |seen|)
    requires |seen| <= Capacity(k) ==> cands == seen
    requires SortedByScore(cands) || cands == seen[..|cands|]
    ensures |cands| <= Capacity(k)
    ensures var r := Admit(cands, c, k);
      SortedByScore(r) || r == (seen + [c])[..|r|]
  {
    if |cands| < k {
      assert cands == seen;
    } else if !AnyWorse(cands, c.score) {
      if !SortedByScore(cands) {
        assert (seen + [c])[..|cands|] == seen[..|cands|];
      }
    }
  }

  /**
    * The candidate list after offering every entry of cs in turn, starting
    * from an empty list: the smallest-scoring choice among cs, and either
    * sorted by score or, when nothing was ever replaced, the first entries in
    * arrival order.
    */
  function AdmitAll(cs: seq<Candidate>, k: int): (r: seq<Candidate>)
    ensures |r| == Min(Capacity(k), |cs|)
    ensures KeepsSmallest(r, cs, k)
    ensures |cs| <= Capacity(k) ==> r == cs
    ensures SortedByScore(r) || r == cs[..|r|]
    decreases |cs|
  {
    if |cs| == 0 then []
    else
      var kept := AdmitAll(cs[..|cs| - 1], k);
      AdmitAllStep(cs, kept, k);
      Admit(kept, cs[|cs| - 1], k)
  }

  /** Offering entry i to the list kept from the entries before it gives the list kept from the first i + 1. */
  lemma AdmitAllPrefix(cs: seq<Candidate>, i: nat, k: int)
    requires i < |cs|
    ensures |AdmitAll(cs[..i], k)| <= Capacity(k)
    ensures AdmitAll(cs[..i + 1], k) == Admit(AdmitAll(cs[..i], k), cs[i], k)
  {
    var p := cs[..i + 1];
    assert p[..|p| - 1] == cs[..i];
  }

  /** The step of AdmitAll: offering the last entry of cs to the list kept from the others. */
  lemma AdmitAllStep(cs: seq<Candidate>, kept: seq<Candidate>, k: int)
    requires |cs| > 0
    requires KeepsSmallest(kept, cs[..|cs| - 1], k)
    requires |cs| - 1 <= Capacity(k) ==> kept == cs[..|cs| - 1]
    requires SortedByScore(kept) || kept == cs[..|cs| - 1][..|kept|]
    ensures |kept| <= Capacity(k)
    ensures var r := Admit(kept, cs[|cs| - 1], k);
      && |r| == Min(Capacity(k), |cs|)
      && KeepsSmallest(r, cs, k)
      && (|cs| <= Capacity(k) ==> r == cs)
      && (SortedByScore(r) || r == cs[..|r|])
  {
    var init, c := cs[..|cs| - 1], cs[|cs| - 1];
    assert cs == init + [c];
    AdmitKeepsSmallest(kept, init, c, k);
    AdmitOrder(kept, init, c, k);
  }
}

/**
  * Worked instances of the admission rule: candidates a, b, c, d with scores
  * 5, 3, 8 and 1 and any spectra.
  */
module TopKExamples {
  import opened TopK

  predicate Scores(a: Candidate, b: Candidate, c: Candidate, d: Candidate)
  {
    a.score == 5.0 && b.score == 3.0 && c.score == 8.0 && d.score == 1.0
  }

  lemma SortThree(a: Candidate, b: Candidate, c: Candidate, d: Candidate)
    requires Scores(a, b, c, d)
    ensures SortByScore([a, b, c]) == [b, a, c]
  {
    assert [a, b, c][..2] == [a, b];
    assert [a, b][..1] == [a];
    assert [a][..0] == [];
    assert [b][..0] == [];
  }

  lemma InsertFirst(a: Candidate, b: Candidate, c: Candidate, d: Candidate)
    requires Scores(a, b, c, d)
    ensures InsertByScore([b], d) == [d, b]
  {
    InsertBeforeLast([b], d);
    InsertIntoEmpty([b][..0], d);
    assert [d] + [b] == [d, b];
  }

  lemma InsertSecond(a: Candidate, b: Candidate, c: Candidate, d: Candidate)
    requires Scores(a, b, c, d)
    ensures InsertByScore([b, a], d) == [d, b, a]
  {
    assert [b, a][..1] == [b];
    InsertBeforeLast([b, a], d);
    InsertFirst(a, b, c, d);
  }

  /** The lowest score goes in at the front of a sorted list. */
  lemma InsertLowest(a: Candidate, b: Candidate, c: Candidate, d: Candidate)
    requires Scores(a, b, c, d)
    ensures InsertByScore([b, a, c], d) == [d, b, a, c]
  {
    assert [b, a, c][..2] == [b, a];
    InsertBeforeLast([b, a, c], d);
    InsertSecond(a, b, c, d);
  }

  /** Sorting 5, 3, 8, 1 gives 1, 3, 5, 8. */
  lemma SortFour(a: Candidate, b: Candidate, c: Candidate, d: Candidate)
    requires Scores(a, b, c, d)
    ensures SortByScore([a, b, c, d]) == [d, b, a, c]
  {
    assert [a, b, c, d][..3] == [a, b, c];
    SortThree(a, b, c, d);
    InsertLowest(a, b, c, d);
  }

  /** A full list of scores 3, 5 offered another 5 is left as it is: ties do not replace. */
  lemma AdmitTieExample(a: Candidate, b: Candidate, c: Candidate, d: Candidate, e: Candidate)
    requires Scores(a, b, c, d) && e.score == 5.0
    ensures Admit([b, a], e, 2) == [b, a]
  {
    assert !AnyWorse([b, a], e.score);
  }

  /** Of two equal scores with room for one, the first to arrive is kept. */
  lemma AdmitAllTieExample(a: Candidate, e: Candidate)
    requires a.score == 5.0 && e.score == 5.0
    ensures AdmitAll([a, e], 1) == [a]
  {
    assert [a, e][..1] == [a];
    assert [a][..0] == [];
    assert !AnyWorse([a], e.score);
  }
}
