/** Counting how often each key occurs: the `reduce` that increments `acc[key]` in place,
    used for a timetable's classes per day and for the number of faculty per department. */
module Tally {
  import opened Basics

  function Occurrences(s: seq<string>, k: string): (n: nat)
    ensures n <= |s|
    ensures n > 0 <==> k in s
  {
    if s == [] then 0
    else Occurrences(s[..|s| - 1], k) + (if s[|s| - 1] == k then 1 else 0)
  }

  /** The distinct keys in order of first occurrence (the key order of a JavaScript object
      filled by the reduce). */
  function FirstOccurrences(s: seq<string>): (ks: seq<string>)
    ensures NoDuplicates(ks)
    ensures forall k :: k in ks <==> k in s
  {
    if s == [] then []
    else
      var p := s[..|s| - 1];
      assert s == p + [s[|s| - 1]];
      if s[|s| - 1] in p then FirstOccurrences(p) else FirstOccurrences(p) + [s[|s| - 1]]
  }

  /** The object the reduce builds: every key that occurs, with its number of occurrences. */
  function TallyOf(s: seq<string>): map<string, nat>
  {
    map k | k in s :: Occurrences(s, k)
  }

  lemma TallyStep(s: seq<string>, x: string)
    ensures TallyOf(s + [x]) == TallyOf(s)[x := (if x in TallyOf(s) then TallyOf(s)[x] else 0) + 1]
  {
    var s' := s + [x];
    assert s'[..|s'| - 1] == s;
    forall k ensures Occurrences(s', k) == Occurrences(s, k) + (if x == k then 1 else 0) { }
  }

  /** The reduce itself: one pass that bumps the counter of each key. */
  method CountOccurrences(s: seq<string>) returns (counts: map<string, nat>)
    ensures counts.Keys == set k | k in s
    ensures forall k :: k in counts ==> counts[k] == Occurrences(s, k)
    ensures counts == TallyOf(s)
  {
    counts := map[];
    var i := 0;
    while i < |s|
      invariant 0 <= i <= |s|
      invariant counts == TallyOf(s[..i])
    {
      TallyStep(s[..i], s[i]);
      assert s[..i + 1] == s[..i] + [s[i]];
      counts := counts[s[i] := (if s[i] in counts then counts[s[i]] else 0) + 1];
      i := i + 1;
    }
    assert s[..|s|] == s;
  }

  /** Every key the tally records was counted at least once. */
  lemma TallyPositive(s: seq<string>, k: string)
    requires k in TallyOf(s)
    ensures TallyOf(s)[k] >= 1
  {
  }

  function SumOccurrences(ks: seq<string>, s: seq<string>): nat
  {
    if ks == [] then 0 else Occurrences(s, ks[0]) + SumOccurrences(ks[1..], s)
  }

  lemma {:induction false} SumOccurrencesSnoc(ks: seq<string>, s: seq<string>, x: string)
    requires NoDuplicates(ks)
    ensures SumOccurrences(ks, s + [x]) == SumOccurrences(ks, s) + (if x in ks then 1 else 0)
  {
    var s' := s + [x];
    assert s'[..|s'| - 1] == s;
    if ks != [] {
      SumOccurrencesSnoc(ks[1..], s, x);
      assert x in ks <==> x == ks[0] || x in ks[1..];
    }
  }

  lemma {:induction false} SumOccurrencesAppend(ks: seq<string>, k: string, s: seq<string>)
    ensures SumOccurrences(ks + [k], s) == SumOccurrences(ks, s) + Occurrences(s, k)
  {
    if ks == [] {
      assert [k][1..] == [];
    } else {
      assert (ks + [k])[1..] == ks[1..] + [k];
      SumOccurrencesAppend(ks[1..], k, s);
    }
  }

  /** The per-key counts add up to the number of keys counted. */
  lemma {:induction false} TallySum(s: seq<string>)
    ensures SumOccurrences(FirstOccurrences(s), s) == |s|
  {
    if s != [] {
      var p, x := s[..|s| - 1], s[|s| - 1];
      assert s == p + [x];
      TallySum(p);
      var ks := FirstOccurrences(p);
      SumOccurrencesSnoc(ks, p, x);
      if x !in p {
        SumOccurrencesAppend(ks, x, s);
        assert Occurrences(p, x) == 0;
      }
    }
  }
}
