/** The library's ordered set of pairs, as the sequence its iteration gives. */
module OrderedSet {

  type Pair = (int, int)

  /** The lexicographic order of `std::pair`. */
  predicate Less(a: Pair, b: Pair) {
    a.0 < b.0 || (a.0 == b.0 && a.1 < b.1)
  }

  predicate Sorted(s: seq<Pair>) {
    forall i, j :: 0 <= i < j < |s| ==> Less(s[i], s[j])
  }

  /** `lower_bound`: the position of the first pair that is not less than `p`. */
  function LowerBound(s: seq<Pair>, p: Pair): (pos: nat)
    ensures pos <= |s|
    ensures forall i :: 0 <= i < pos ==> Less(s[i], p)
    ensures pos < |s| ==> !Less(s[pos], p)
  {
    if s == [] || !Less(s[0], p) then 0 else 1 + LowerBound(s[1..], p)
  }

  /** `insert`: the set with `p` in its place, and whether it was not there before. */
  function Insert(s: seq<Pair>, p: Pair): (seq<Pair>, bool) {
    var pos := LowerBound(s, p);
    if pos < |s| && s[pos] == p then (s, false) else (s[..pos] + [p] + s[pos..], true)
  }

  /** `erase`: the set without `p`, and how many pairs that removed. */
  function Erase(s: seq<Pair>, p: Pair): (seq<Pair>, nat) {
    var pos := LowerBound(s, p);
    if pos < |s| && s[pos] == p then (s[..pos] + s[pos + 1..], 1) else (s, 0)
  }

  /** On a sorted sequence `lower_bound` finds a pair that is present. */
  lemma FoundAtLowerBound(s: seq<Pair>, p: Pair)
    requires Sorted(s)
    ensures p in s <==> LowerBound(s, p) < |s| && s[LowerBound(s, p)] == p
    ensures forall i :: LowerBound(s, p) <= i < |s| ==> !Less(s[i], p)
  {
    var pos := LowerBound(s, p);
    if p in s {
      var i :| 0 <= i < |s| && s[i] == p;
      if i != pos { assert false; }
    }
  }

  lemma InsertMembers(s: seq<Pair>, p: Pair)
    requires Sorted(s)
    ensures var (t, added) := Insert(s, p);
            && Sorted(t) && (added <==> p !in s)
            && (forall x :: x in t <==> x in s || x == p)
            && |t| == |s| + if added then 1 else 0
  {
    FoundAtLowerBound(s, p);
    if p !in s {
      var pos := LowerBound(s, p);
      forall i | pos <= i < |s| ensures Less(p, s[i]) {
        assert s[i] != p && !Less(s[i], p);
      }
      Spliced(s[..pos], p, s[pos..]);
      assert s == s[..pos] + s[pos..];
    }
  }

  lemma Spliced(front: seq<Pair>, p: Pair, back: seq<Pair>)
    requires Sorted(front) && Sorted(back)
    requires forall i :: 0 <= i < |front| ==> Less(front[i], p)
    requires forall i :: 0 <= i < |back| ==> Less(p, back[i])
    ensures Sorted(front + [p] + back)
  {
  }

  lemma EraseMembers(s: seq<Pair>, p: Pair)
    requires Sorted(s)
    ensures var (t, n) := Erase(s, p);
            && Sorted(t) && (n == 1 <==> p in s) && n <= 1
            && (forall x :: x in t <==> x in s && x != p)
            && |t| == |s| - n
  {
    FoundAtLowerBound(s, p);
    var pos := LowerBound(s, p);
    if p in s {
      var t := s[..pos] + s[pos + 1..];
      assert s == s[..pos] + [p] + s[pos + 1..];
      forall k | 0 <= k < |s| && k != pos ensures s[k] != p {
        if k < pos { assert Less(s[k], s[pos]); } else { assert Less(s[pos], s[k]); }
      }
    }
  }
}
