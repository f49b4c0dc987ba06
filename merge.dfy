/** `merge_results`: the inner join of the warehouse rows with the entries
    of one run on their shared `numero` column. */
module Merge {
  import opened PipelineTypes

  /** A row of the merged table: the shared number, the warehouse row and
      the enrichment entry it was matched with. */
  datatype MergedRow = MergedRow(numero: int, reference: RefRow, enrichment: ApiRow)

  /** The merged rows for one warehouse row, in the order of `right`. */
  function Matches(row: RefRow, right: seq<ApiRow>): seq<MergedRow>
  {
    if right == [] then []
    else
      var n := |right| - 1;
      Matches(row, right[..n])
        + (if right[n].numero == row.numero then [MergedRow(row.numero, row, right[n])] else [])
  }

  /** The inner join, warehouse row by warehouse row: each row of `left`
      contributes one merged row per entry of `right` with the same number. */
  function MergeResults(left: seq<RefRow>, right: seq<ApiRow>): seq<MergedRow>
  {
    if left == [] then []
    else
      var n := |left| - 1;
      MergeResults(left[..n], right) + Matches(left[n], right)
  }

  /** A merged row whose warehouse row and entry both carry its number. */
  ghost predicate Joined(m: MergedRow)
  {
    m.numero == m.reference.numero && m.numero == m.enrichment.numero
  }

  lemma {:induction false} MatchesMembership(row: RefRow, right: seq<ApiRow>)
    ensures forall m :: m in Matches(row, right) <==> m.reference == row && m.enrichment in right && Joined(m)
  {
    if right != [] {
      var n := |right| - 1;
      MatchesMembership(row, right[..n]);
      assert right == right[..n] + [right[n]];
    }
  }

  /** The merged rows are exactly the pairs of a warehouse row and an entry
      with the same number. */
  lemma {:induction false} MergeMembership(left: seq<RefRow>, right: seq<ApiRow>)
    ensures forall m :: m in MergeResults(left, right) <==> m.reference in left && m.enrichment in right && Joined(m)
  {
    if left != [] {
      var n := |left| - 1;
      MergeMembership(left[..n], right);
      MatchesMembership(left[n], right);
      assert left == left[..n] + [left[n]];
    }
  }

  /** The join is empty exactly when no warehouse row shares its number
      with an entry. */
  lemma MergeEmpty(left: seq<RefRow>, right: seq<ApiRow>)
    ensures MergeResults(left, right) == [] <==>
      forall r, a :: r in left && a in right ==> r.numero != a.numero
  {
    MergeMembership(left, right);
    var merged := MergeResults(left, right);
    if merged != [] {
      assert merged[0] in merged;
    }
    forall r, a | r in left && a in right && r.numero == a.numero
      ensures MergedRow(r.numero, r, a) in merged
    {
    }
  }

  /** The merged rows for one warehouse row hold each same-numbered entry
      as often as it occurs in `right`. */
  lemma {:induction false} MatchesCount(row: RefRow, right: seq<ApiRow>, m: MergedRow)
    ensures multiset(Matches(row, right))[m]
         == if m.reference == row && Joined(m) then multiset(right)[m.enrichment] else 0
  {
    if right != [] {
      var n := |right| - 1;
      MatchesCount(row, right[..n], m);
      assert right == right[..n] + [right[n]];
      assert multiset(right) == multiset(right[..n]) + multiset{right[n]};
    }
  }

  lemma MulStep(a: nat, b: nat)
    ensures (a + 1) * b == a * b + b
  {
  }

  /** The join holds each matching pair once per pair of positions: a
      warehouse row occurring `a` times and an entry occurring `b` times
      with the same number give `a * b` merged rows. */
  lemma {:induction false} MergeCount(left: seq<RefRow>, right: seq<ApiRow>, m: MergedRow)
    ensures multiset(MergeResults(left, right))[m]
         == if Joined(m) then multiset(left)[m.reference] * multiset(right)[m.enrichment] else 0
  {
    if left != [] {
      var n := |left| - 1;
      MergeCount(left[..n], right, m);
      MatchesCount(left[n], right, m);
      assert left == left[..n] + [left[n]];
      assert multiset(left) == multiset(left[..n]) + multiset{left[n]};
      assert multiset(MergeResults(left, right))
          == multiset(MergeResults(left[..n], right)) + multiset(Matches(left[n], right));
      if Joined(m) {
        var a, b := multiset(left[..n])[m.reference], multiset(right)[m.enrichment];
        if m.reference == left[n] {
          assert multiset(left)[m.reference] == a + 1;
          assert multiset(Matches(left[n], right))[m] == b;
          MulStep(a, b);
        } else {
          assert multiset(left)[m.reference] == a;
          assert multiset(Matches(left[n], right))[m] == 0;
        }
      }
    }
  }
}
