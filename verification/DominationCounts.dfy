/** How often individuals occur in a list, and how often somebody better does. */
module DominationCounts {
  import opened Walks
  import opened Dominance

  function Occ(list: seq<Individual>, p: Individual): nat {
    if list == [] then 0 else Occ(list[..|list| - 1], p) + if list[|list| - 1] == p then 1 else 0
  }

  /** `n` times `c`. */
  function Times(n: nat, c: nat): nat {
    if n == 0 then 0 else Times(n - 1, c) + c
  }

  /** The places of `list` that hold somebody of `rest` who is better than `p`. */
  ghost function Weight(p: Individual, list: seq<Individual>, rest: set<Individual>): nat {
    if list == [] then 0
    else
      var last := list[|list| - 1];
      Weight(p, list[..|list| - 1], rest) + if last in rest && last.IsBetterThan(p) then 1 else 0
  }

  /** What the counter of `p` has to be: as many comparisons lost as there are pairs of a place of `p` and a place of
      somebody better. */
  ghost function Load(p: Individual, list: seq<Individual>, rest: set<Individual>): nat {
    Times(Occ(list, p), Weight(p, list, rest))
  }

  lemma OccMore(list: seq<Individual>, x: Individual, p: Individual)
    ensures Occ(list + [x], p) == Occ(list, p) + if x == p then 1 else 0
  {
    assert (list + [x])[..|list|] == list;
  }

  lemma WeightMore(p: Individual, list: seq<Individual>, x: Individual, rest: set<Individual>)
    ensures Weight(p, list + [x], rest) == Weight(p, list, rest) + if x in rest && x.IsBetterThan(p) then 1 else 0
  {
    assert (list + [x])[..|list|] == list;
  }

  lemma {:induction false} OccIn(list: seq<Individual>, p: Individual)
    ensures p in list <==> Occ(list, p) > 0
  {
    if list != [] {
      var n := |list| - 1;
      OccIn(list[..n], p);
      assert list == list[..n] + [list[n]];
    }
  }

  /** Without repeats nobody is counted twice. */
  lemma {:induction false} CountedOnce(list: seq<Individual>, p: Individual)
    requires NoRepeats(list)
    ensures Occ(list, p) <= 1
  {
    if list != [] {
      var n := |list| - 1;
      CountedOnce(list[..n], p);
      OccIn(list[..n], p);
      assert list[n] !in list[..n];
    }
  }

  /** With repeats somebody is. */
  lemma {:induction false} CountedTwice(list: seq<Individual>) returns (p: Individual)
    requires !NoRepeats(list)
    ensures Occ(list, p) >= 2
  {
    var n := |list| - 1;
    if NoRepeats(list[..n]) {
      var i, j :| 0 <= i < j < |list| && list[i] == list[j];
      var init := list[..n];
      assert forall x, y :: 0 <= x < y < n ==> init[x] != init[y];
      assert init[i] == list[n];
      OccIn(list[..n], list[n]);
      p := list[n];
    } else {
      p := CountedTwice(list[..n]);
    }
  }

  lemma {:induction false} TimesZero(n: nat, c: nat)
    ensures Times(n, c) == 0 <==> n == 0 || c == 0
  {
    if n > 0 {
      TimesZero(n - 1, c);
    }
  }

  lemma {:induction false} TimesAdd(n: nat, a: nat, b: nat)
    ensures Times(n, a + b) == Times(n, a) + Times(n, b)
  {
    if n > 0 {
      TimesAdd(n - 1, a, b);
    }
  }

  lemma {:induction false} TimesOne(n: nat)
    ensures Times(n, 1) == n
  {
    if n > 0 {
      TimesOne(n - 1);
    }
  }

  lemma {:induction false} TimesCommutes(n: nat, c: nat)
    ensures Times(n, c) == Times(c, n)
    decreases c
  {
    if c == 0 {
      TimesZero(n, 0);
    } else {
      TimesCommutes(n, c - 1);
      TimesAdd(n, c - 1, 1);
      TimesOne(n);
    }
  }

  lemma {:induction false} WeightLess(p: Individual, list: seq<Individual>, rest: set<Individual>, c: Individual)
    requires c in rest
    ensures Weight(p, list, rest) == Weight(p, list, rest - {c}) + if c.IsBetterThan(p) then Occ(list, c) else 0
  {
    if list != [] {
      WeightLess(p, list[..|list| - 1], rest, c);
    }
  }

  lemma {:induction false} WeightZero(p: Individual, list: seq<Individual>, rest: set<Individual>)
    ensures Weight(p, list, rest) == 0 <==> forall q :: q in list && q in rest ==> !q.IsBetterThan(p)
  {
    if list != [] {
      var n := |list| - 1;
      WeightZero(p, list[..n], rest);
      assert list == list[..n] + [list[n]];
    }
  }

  /** Taking `c` away costs `p` as many comparisons as there are pairs of a place of `c` and a place of `p`. */
  lemma LoadLess(p: Individual, list: seq<Individual>, rest: set<Individual>, c: Individual)
    requires c in rest
    ensures Load(p, list, rest) ==
            Load(p, list, rest - {c}) + if c.IsBetterThan(p) then Times(Occ(list, c), Occ(list, p)) else 0
  {
    WeightLess(p, list, rest, c);
    if c.IsBetterThan(p) {
      TimesAdd(Occ(list, p), Weight(p, list, rest - {c}), Occ(list, c));
      TimesCommutes(Occ(list, p), Occ(list, c));
    }
  }

  /** The counter is zero exactly if nobody better is left. */
  lemma LoadZero(p: Individual, list: seq<Individual>, rest: set<Individual>)
    requires p in list && rest <= Elements(list)
    ensures Load(p, list, rest) == 0 <==> Dominators(p, rest) == {}
  {
    OccIn(list, p);
    TimesZero(Occ(list, p), Weight(p, list, rest));
    WeightZero(p, list, rest);
    if Dominators(p, rest) != {} {
      var q :| q in Dominators(p, rest);
      assert q in Elements(list) && q in list;
    } else {
      forall q | q in list && q in rest
        ensures !q.IsBetterThan(p)
      {
        assert q !in Dominators(p, rest);
      }
    }
  }
}
