/** The last step of a run: keep the new entries and rebuild the merged
    table, or skip both when the run found nothing new. */
module Pipeline {
  import opened PipelineTypes
  import opened Enrichment
  import opened EnrichmentFacts
  import Merge

  /** What a run writes. `MergeSkipped`: nothing is appended and the merged
      table is left as it was. `Saved`: `appended` goes to the end of the
      enrichment table and `merged` replaces the merged table. `added` is
      the count announced at the end of the run in both cases. */
  datatype RunOutcome =
    | MergeSkipped
    | Saved(appended: seq<ApiRow>, merged: seq<Merge.MergedRow>)
  {
    function Added(): nat
    {
      if MergeSkipped? then 0 else |appended|
    }
  }

  /** The branch on an empty result: skip, or append and merge the new
      entries (only those of this run) with the whole warehouse snapshot. */
  function FinishRun(reference: seq<RefRow>, api: seq<ApiRow>): (o: RunOutcome)
    ensures o.MergeSkipped? <==> api == []
    ensures o.Added() == |api|
    ensures o.Saved? ==> o.appended == api
    ensures o.Saved? ==> o.merged == Merge.MergeResults(reference, api)
    ensures o.Saved? ==> forall m :: m in o.merged <==>
      m.reference in reference && m.enrichment in api && Merge.Joined(m)
    ensures o.Saved? ==> forall m :: (multiset(o.merged)[m] ==
      if Merge.Joined(m) then multiset(reference)[m.reference] * multiset(api)[m.enrichment] else 0)
  {
    if |api| == 0 then MergeSkipped
    else
      Merge.MergeMembership(reference, api);
      assert forall m :: (multiset(Merge.MergeResults(reference, api))[m] ==
        if Merge.Joined(m) then multiset(reference)[m.reference] * multiset(api)[m.enrichment] else 0) by {
        forall m {
          Merge.MergeCount(reference, api, m);
        }
      }
      Saved(api, Merge.MergeResults(reference, api))
  }

  /** "Nothing new" and "nothing matched" are told apart: an empty run
      skips the merge, while entries that match no warehouse row still
      get appended and leave an empty merged table. */
  lemma NothingNewIsNotNothingMatched(reference: seq<RefRow>, api: seq<ApiRow>)
    requires api != []
    requires forall r, a :: r in reference && a in api ==> r.numero != a.numero
    ensures FinishRun(reference, []) == MergeSkipped
    ensures FinishRun(reference, api) == Saved(api, [])
  {
    Merge.MergeEmpty(reference, api);
  }

  /** The numbers the enrichment table holds once `api` is appended. */
  function AppendedLedger(ledger: seq<int>, api: seq<ApiRow>): (grown: seq<int>)
    ensures |grown| == |ledger| + |api|
    ensures grown[..|ledger|] == ledger
    ensures forall k :: 0 <= k < |api| ==> grown[|ledger| + k] == api[k].numero
    ensures forall a :: a in api ==> a.numero in grown
    ensures forall id :: id in ledger ==> id in grown
  {
    var ids := seq(|api|, k requires 0 <= k < |api| => api[k].numero);
    assert forall k :: 0 <= k < |api| ==> (ledger + ids)[|ledger| + k] == api[k].numero;
    ledger + ids
  }

  /** A run: enrich the rows that are not yet known, then finish. */
  method RunPipeline(reference: seq<RefRow>, ledgerRead: Option<seq<int>>, oracle: Oracle)
    returns (outcome: RunOutcome)
    ensures outcome == FinishRun(reference, Enrich(WorkSet(reference, Ledger(ledgerRead)), oracle))
    ensures outcome.MergeSkipped? <==>
      forall r :: r in reference && r.numero !in Ledger(ledgerRead) ==> !BothOk(oracle(r.numero))
  {
    var api;
    ghost var lookups, warnings, reports, pauses;
    api, lookups, warnings, reports, pauses := GetApiData(reference, ledgerRead, oracle);
    outcome := FinishRun(reference, api);
    WorkSetMembership(reference, Ledger(ledgerRead));
    NothingKept(WorkSet(reference, Ledger(ledgerRead)), oracle);
  }

  /** Running again right after a successful save finds nothing new, when
      the service answers with the number it was asked for: every number
      that could succeed is now in the table. */
  lemma RerunFindsNothing(reference: seq<RefRow>, ledger: seq<int>, oracle: Oracle)
    requires IdsFaithful(oracle)
    ensures var first := Enrich(WorkSet(reference, ledger), oracle);
      Enrich(WorkSet(reference, AppendedLedger(ledger, first)), oracle) == []
  {
    var ws1 := WorkSet(reference, ledger);
    var first := Enrich(ws1, oracle);
    var ledger2 := AppendedLedger(ledger, first);
    var ws2 := WorkSet(reference, ledger2);
    WorkSetMembership(reference, ledger);
    WorkSetMembership(reference, ledger2);
    EnrichMembership(ws1, oracle);
    forall r | r in ws2
      ensures !BothOk(oracle(r.numero))
    {
      assert r in ws1;
      var e := Entry(oracle(r.numero));
      assert BothOk(oracle(r.numero)) ==> e in first && e.numero == r.numero;
    }
    NothingKept(ws2, oracle);
  }

  /** Without that assumption the rerun can repeat work: a service that
      answers number 1 with a payload whose id is 2 makes every run look
      number 1 up again and append another entry. */
  lemma RerunRepeatsWhenIdsDiffer()
    ensures var oracle: Oracle := (id: int) =>
        Lookup(Response(StatusOk, PokemonBody(id + 1, [], [])),
               Response(StatusOk, SpeciesBody(NamedResource("generation-i"))));
      var reference := [RefRow(1, map[])];
      var first := Enrich(WorkSet(reference, []), oracle);
      first == [ApiRow(2, "", "", "generation-i")]
      && Enrich(WorkSet(reference, AppendedLedger([], first)), oracle) == first
  {
    var oracle: Oracle := (id: int) =>
        Lookup(Response(StatusOk, PokemonBody(id + 1, [], [])),
               Response(StatusOk, SpeciesBody(NamedResource("generation-i"))));
    var reference := [RefRow(1, map[])];
    assert reference[..0] == [];
    assert WorkSet(reference, []) == reference;
    var first := Enrich(reference, oracle);
    assert first == [ApiRow(2, "", "", "generation-i")];
    assert AppendedLedger([], first) == [2];
    assert WorkSet(reference, [2]) == reference;
  }
}
