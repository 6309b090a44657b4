/**
 This module models the sign classifier shared by the sequential counter
 and every worker of the parallel counter: each element of the sample
 array goes into exactly one of three buckets (zero, positive, negative),
 and a count triple records how many elements went where.
 */
module Counting {

  /** The element type of the sample array: a signed 32-bit integer. */
  type I32 = x: int | -0x8000_0000 <= x < 0x8000_0000

  /** The three exclusive buckets an element can fall into. */
  datatype Bucket = Zeros | Positives | Negatives

  /** A count triple: how many elements fell into each bucket. */
  datatype Triple = Triple(zeros: nat, positives: nat, negatives: nat) {

    /** The number of elements the triple accounts for. */
    function Total(): nat {
      zeros + positives + negatives
    }

    /** The count kept for one bucket. */
    function Get(b: Bucket): nat {
      match b
      case Zeros => zeros
      case Positives => positives
      case Negatives => negatives
    }
  }

  /** The triple the counters start from, and the result for an empty array. */
  const Empty := Triple(0, 0, 0)

  /** The bucket of one element: zero, strictly positive, or everything else. */
  function Classify(x: int): (b: Bucket)
    ensures b == Zeros <==> x == 0
    ensures b == Positives <==> x > 0
    ensures b == Negatives <==> x < 0
  {
    if x == 0 then Zeros else if x > 0 then Positives else Negatives
  }

  /** One step of the scan: the bucket of `x` goes up by one. */
  function Tally(t: Triple, x: int): (r: Triple)
    ensures r.Get(Classify(x)) == t.Get(Classify(x)) + 1
    ensures forall b: Bucket :: b != Classify(x) ==> r.Get(b) == t.Get(b)
    ensures r.Total() == t.Total() + 1
  {
    if x == 0 then t.(zeros := t.zeros + 1)
    else if x > 0 then t.(positives := t.positives + 1)
    else t.(negatives := t.negatives + 1)
  }

  /** Component-wise sum of two triples: the merge of two partial counts. */
  function Add(a: Triple, b: Triple): (r: Triple)
    ensures r.Total() == a.Total() + b.Total()
  {
    Triple(a.zeros + b.zeros, a.positives + b.positives, a.negatives + b.negatives)
  }

  /** The three fields of a merged triple, for proofs that reason field by field. */
  lemma AddFields(a: Triple, b: Triple)
    ensures Add(a, b).zeros == a.zeros + b.zeros
    ensures Add(a, b).positives == a.positives + b.positives
    ensures Add(a, b).negatives == a.negatives + b.negatives
  {
  }

  /** Each bucket of a merged triple holds the sum of that bucket in the two parts. */
  lemma AddGet(a: Triple, b: Triple, k: Bucket)
    ensures Add(a, b).Get(k) == a.Get(k) + b.Get(k)
  {
    AddFields(a, b);
  }

  /** Merging two partial counts does not depend on which comes first. */
  lemma AddCommutes(a: Triple, b: Triple)
    ensures Add(a, b) == Add(b, a)
  {
    AddFields(a, b);
    AddFields(b, a);
  }

  /** The count triple of a whole array, scanned in index order. */
  function Count(s: seq<I32>): Triple {
    if |s| == 0 then Empty else Tally(Count(s[..|s| - 1]), s[|s| - 1])
  }

  /** Scanning element i tallies it onto the count of the elements before it. */
  lemma CountTake(s: seq<I32>, i: nat)
    requires i < |s|
    ensures Count(s[..i + 1]) == Tally(Count(s[..i]), s[i])
  {
    assert s[..i + 1][..i] == s[..i];
  }

  /** The prefix of full length is the whole array. */
  lemma CountWhole(s: seq<I32>)
    ensures Count(s[..|s|]) == Count(s)
  {
    assert s[..|s|] == s;
  }

  /** Every element lands in some bucket: the three counts add up to the length. */
  lemma {:induction false} CountTotal(s: seq<I32>)
    ensures Count(s).Total() == |s|
  {
    if |s| > 0 {
      CountTotal(s[..|s| - 1]);
    }
  }

  /** The indices of `s` whose element falls into bucket `b`. */
  ghost function Members(s: seq<I32>, b: Bucket): set<int> {
    set i | 0 <= i < |s| && Classify(s[i]) == b
  }

  /** The last index of a non-empty array joins its own bucket's members and no other. */
  lemma MembersLast(s: seq<I32>, b: Bucket)
    requires |s| > 0
    ensures Classify(s[|s| - 1]) == b ==> Members(s, b) == Members(s[..|s| - 1], b) + {|s| - 1}
    ensures Classify(s[|s| - 1]) != b ==> Members(s, b) == Members(s[..|s| - 1], b)
    ensures |s| - 1 !in Members(s[..|s| - 1], b)
  {
    var init := s[..|s| - 1];
    assert forall i :: 0 <= i < |init| ==> init[i] == s[i];
  }

  /**
   The count kept for a bucket equals the number of indices whose element
   falls into that bucket: each element is counted once, in its own bucket.
   */
  lemma {:induction false} CountIsMembership(s: seq<I32>, b: Bucket)
    ensures Count(s).Get(b) == |Members(s, b)|
  {
    if |s| == 0 {
      assert Members(s, b) == {};
    } else {
      CountIsMembership(s[..|s| - 1], b);
      MembersLast(s, b);
    }
  }

  /** Scanning one element onto a sum only bumps the second operand. */
  lemma TallyAdd(a: Triple, b: Triple, x: int)
    ensures Tally(Add(a, b), x) == Add(a, Tally(b, x))
  {
    AddFields(a, b);
    AddFields(a, Tally(b, x));
  }

  /** The empty triple is the unit of merging. */
  lemma AddEmpty(t: Triple)
    ensures Add(t, Empty) == t
  {
    assert Empty == Triple(0, 0, 0);
    AddFields(t, Empty);
  }

  /** Merging is associative, so partial sums may be regrouped. */
  lemma AddAssoc(a: Triple, b: Triple, c: Triple)
    ensures Add(Add(a, b), c) == Add(a, Add(b, c))
  {
    AddFields(a, b);
    AddFields(Add(a, b), c);
    AddFields(b, c);
    AddFields(a, Add(b, c));
  }

  /** Counting distributes over concatenation: the count of `a + b` is the merge of the two counts. */
  lemma {:induction false} CountConcat(a: seq<I32>, b: seq<I32>)
    ensures Count(a + b) == Add(Count(a), Count(b))
  {
    if |b| == 0 {
      assert a + b == a;
      AddEmpty(Count(a));
    } else {
      var n := |b| - 1;
      var ab := a + b;
      assert ab[..|ab| - 1] == a + b[..n];
      assert ab[|ab| - 1] == b[n];
      calc {
        Count(ab);
        Tally(Count(a + b[..n]), b[n]);
        { CountConcat(a, b[..n]); }
        Tally(Add(Count(a), Count(b[..n])), b[n]);
        { TallyAdd(Count(a), Count(b[..n]), b[n]); }
        Add(Count(a), Tally(Count(b[..n]), b[n]));
        Add(Count(a), Count(b));
      }
    }
  }

  /** Cutting an array in two and merging the counts of the parts gives the count of the whole. */
  lemma CountSplit(s: seq<I32>, i: nat)
    requires i <= |s|
    ensures Count(s) == Add(Count(s[..i]), Count(s[i..]))
  {
    assert s == s[..i] + s[i..];
    CountConcat(s[..i], s[i..]);
  }

  /** The count of the prefix ending at b merges the prefix ending at a with the stretch [a, b). */
  lemma CountPrefixSplit(s: seq<I32>, a: nat, b: nat)
    requires a <= b <= |s|
    ensures Count(s[..b]) == Add(Count(s[..a]), Count(s[a..b]))
  {
    CountSplit(s[..b], a);
    assert s[..b][..a] == s[..a];
    assert s[..b][a..] == s[a..b];
  }

  /** The loop body of the scan: bump the counter of the bucket `x` falls into. */
  method ScanElement(zeros: nat, pos: nat, neg: nat, x: I32) returns (zeros': nat, pos': nat, neg': nat)
    ensures Triple(zeros', pos', neg') == Tally(Triple(zeros, pos, neg), x)
  {
    zeros', pos', neg' := zeros, pos, neg;
    if x == 0 {
      zeros' := zeros + 1;
    } else if x > 0 {
      pos' := pos + 1;
    } else {
      neg' := neg + 1;
    }
  }

  /** The sequential counter (count_elements_single) as a loop over the array in index order. */
  method CountElementsSingle(data: seq<I32>) returns (zeros: nat, pos: nat, neg: nat)
    ensures Triple(zeros, pos, neg) == Count(data)
    ensures zeros + pos + neg == |data|
  {
    zeros, pos, neg := 0, 0, 0;
    var i := 0;
    while i < |data|
      invariant i <= |data|
      invariant Triple(zeros, pos, neg) == Count(data[..i])
    {
      CountTake(data, i);
      zeros, pos, neg := ScanElement(zeros, pos, neg, data[i]);
      i := i + 1;
    }
    CountWhole(data);
    CountTotal(data);
  }
}
