/** The incremental enrichment loop `get_api_data`: skip the rows whose
    Pokedex number is already in the enrichment table, look the others up
    in the remote service, and keep an entry for each row whose two
    lookups both answered 200.

    The specification functions below recurse on the last row, so that
    each one describes the state of the loop after a prefix of the
    warehouse rows. Their properties are stated in `EnrichmentFacts`. */
module Enrichment {
  import opened PipelineTypes
  import Serialise

  const StatusOk: int := 200
  const ProgressEvery: nat := 30

  /** The `numero` column read from the enrichment table (one entry per
      stored row); an empty table when the read fails. */
  function Ledger(read: Option<seq<int>>): seq<int>
  {
    match read
    case Some(rows) => rows
    case None => []
  }

  /** The skip test: the table is not empty and holds the number. */
  predicate IsKnown(ledger: seq<int>, numero: int)
  {
    |ledger| != 0 && numero in ledger
  }

  /** The rows that are not skipped, in warehouse order. */
  function WorkSet(reference: seq<RefRow>, ledger: seq<int>): (ws: seq<RefRow>)
    ensures |ws| <= |reference|
  {
    if reference == [] then []
    else
      var n := |reference| - 1;
      WorkSet(reference[..n], ledger) + (if IsKnown(ledger, reference[n].numero) then [] else [reference[n]])
  }

  /** The Pokedex numbers of some rows, in order. */
  function Numeros(rows: seq<RefRow>): (ids: seq<int>)
    ensures |ids| == |rows|
  {
    if rows == [] then [] else Numeros(rows[..|rows| - 1]) + [rows[|rows| - 1].numero]
  }

  predicate BothOk(l: Lookup)
  {
    l.pokemon.status == StatusOk && l.species.status == StatusOk
  }

  /** The type names of a /pokemon body, in the order given. */
  function TypeNames(slots: seq<TypeSlot>): (names: seq<string>)
    ensures |names| == |slots|
  {
    if slots == [] then [] else [slots[0].typeRef.name] + TypeNames(slots[1..])
  }

  /** The ability names of a /pokemon body, in the order given. */
  function AbilityNames(slots: seq<AbilitySlot>): (names: seq<string>)
    ensures |names| == |slots|
  {
    if slots == [] then [] else [slots[0].ability.name] + AbilityNames(slots[1..])
  }

  /** The entry built from two successful responses. Its `numero` is the
      `id` of the /pokemon body, not the number that was requested. */
  function Entry(l: Lookup): ApiRow
  {
    ApiRow(l.pokemon.body.id,
           Serialise.Join(TypeNames(l.pokemon.body.types)),
           Serialise.Join(AbilityNames(l.pokemon.body.abilities)),
           l.species.body.generation.name)
  }

  /** The entries gathered while processing the rows `ws`. */
  function Enrich(ws: seq<RefRow>, oracle: Oracle): (out: seq<ApiRow>)
    ensures |out| <= |ws|
  {
    if ws == [] then []
    else
      var n := |ws| - 1;
      var l := oracle(ws[n].numero);
      Enrich(ws[..n], oracle) + (if BothOk(l) then [Entry(l)] else [])
  }

  /** The warnings logged while processing the rows `ws`. */
  function Warnings(ws: seq<RefRow>, oracle: Oracle): seq<Warning>
  {
    if ws == [] then []
    else
      var n := |ws| - 1;
      var l := oracle(ws[n].numero);
      Warnings(ws[..n], oracle) + (if BothOk(l) then [] else [Warning(ws[n].numero, l.pokemon.status, l.species.status)])
  }

  /** The progress lines logged once `count` rows have been processed:
      one at each positive multiple of 30, all with the same estimate. */
  function Reports(count: nat, remaining: int): seq<Report>
  {
    seq(count / ProgressEvery, k requires 0 <= k < count / ProgressEvery => Report(ProgressEvery * (k + 1), remaining))
  }

  /** The positions in the warehouse rows of the rows that yield an entry. */
  function SuccessIndices(reference: seq<RefRow>, ledger: seq<int>, oracle: Oracle): (idx: seq<nat>)
    ensures |idx| <= |reference|
  {
    if reference == [] then []
    else
      var n := |reference| - 1;
      var r := reference[n];
      SuccessIndices(reference[..n], ledger, oracle)
        + (if !IsKnown(ledger, r.numero) && BothOk(oracle(r.numero)) then [n] else [])
  }

  // One step of the loop, stated for each branch it can take.

  lemma SkipStep(reference: seq<RefRow>, i: nat, ledger: seq<int>)
    requires i < |reference| && IsKnown(ledger, reference[i].numero)
    ensures WorkSet(reference[..i + 1], ledger) == WorkSet(reference[..i], ledger)
  {
    assert reference[..i + 1][..i] == reference[..i];
  }

  lemma VisitStep(reference: seq<RefRow>, i: nat, ledger: seq<int>)
    requires i < |reference| && !IsKnown(ledger, reference[i].numero)
    ensures WorkSet(reference[..i + 1], ledger) == WorkSet(reference[..i], ledger) + [reference[i]]
  {
    assert reference[..i + 1][..i] == reference[..i];
  }

  lemma ReportDue(count: nat, remaining: int)
    requires (count + 1) % ProgressEvery == 0
    ensures Reports(count + 1, remaining) == Reports(count, remaining) + [Report(count + 1, remaining)]
  {
    assert (count + 1) / ProgressEvery == count / ProgressEvery + 1;
  }

  lemma ReportNotDue(count: nat, remaining: int)
    requires (count + 1) % ProgressEvery != 0
    ensures Reports(count + 1, remaining) == Reports(count, remaining)
  {
    assert (count + 1) / ProgressEvery == count / ProgressEvery;
  }

  lemma LookupStep(done: seq<RefRow>, row: RefRow)
    ensures Numeros(done + [row]) == Numeros(done) + [row.numero]
  {
    assert (done + [row])[..|done|] == done;
  }

  lemma SuccessStep(done: seq<RefRow>, row: RefRow, oracle: Oracle)
    requires BothOk(oracle(row.numero))
    ensures Enrich(done + [row], oracle) == Enrich(done, oracle) + [Entry(oracle(row.numero))]
    ensures Warnings(done + [row], oracle) == Warnings(done, oracle)
  {
    assert (done + [row])[..|done|] == done;
  }

  lemma FailureStep(done: seq<RefRow>, row: RefRow, oracle: Oracle)
    requires !BothOk(oracle(row.numero))
    ensures Enrich(done + [row], oracle) == Enrich(done, oracle)
    ensures var l := oracle(row.numero);
      Warnings(done + [row], oracle) == Warnings(done, oracle) + [Warning(row.numero, l.pokemon.status, l.species.status)]
  {
    assert (done + [row])[..|done|] == done;
  }

  /** `get_api_data`. The lookups, the logged warnings and progress lines,
      and the pauses are the loop's observable effects, returned as ghost
      traces: one lookup stands for the /pokemon and /pokemon-species
      request pair of one row. */
  method GetApiData(reference: seq<RefRow>, ledgerRead: Option<seq<int>>, oracle: Oracle)
    returns (result: seq<ApiRow>, ghost lookups: seq<int>, ghost warnings: seq<Warning>,
             ghost reports: seq<Report>, ghost pauses: nat)
    ensures result == Enrich(WorkSet(reference, Ledger(ledgerRead)), oracle)
    ensures lookups == Numeros(WorkSet(reference, Ledger(ledgerRead)))
    ensures warnings == Warnings(WorkSet(reference, Ledger(ledgerRead)), oracle)
    ensures reports == Reports(|lookups|, |reference| - |Ledger(ledgerRead)|)
    ensures pauses == |reference|
    ensures |result| <= |lookups| <= |reference|
  {
    var ledger := Ledger(ledgerRead);
    var total := |reference|;
    var remaining := total - |ledger|;
    var count: nat := 0;
    var info: seq<ApiRow> := [];
    ghost var done: seq<RefRow> := [];
    lookups, warnings, reports, pauses := [], [], [], 0;
    for i := 0 to |reference|
      invariant done == WorkSet(reference[..i], ledger)
      invariant count == |done|
      invariant info == Enrich(done, oracle)
      invariant lookups == Numeros(done)
      invariant warnings == Warnings(done, oracle)
      invariant reports == Reports(count, remaining)
      invariant pauses == i
    {
      var row := reference[i];
      pauses := pauses + 1;
      if IsKnown(ledger, row.numero) {
        SkipStep(reference, i, ledger);
        continue;
      }
      VisitStep(reference, i, ledger);
      ghost var before := count;
      count := count + 1;
      if count % ProgressEvery == 0 {
        ReportDue(before, remaining);
        reports := reports + [Report(count, remaining)];
      } else {
        ReportNotDue(before, remaining);
      }
      var l := oracle(row.numero);
      LookupStep(done, row);
      lookups := lookups + [row.numero];
      if BothOk(l) {
        SuccessStep(done, row, oracle);
        info := info + [Entry(l)];
      } else {
        FailureStep(done, row, oracle);
        warnings := warnings + [Warning(row.numero, l.pokemon.status, l.species.status)];
      }
      done := done + [row];
    }
    assert reference[..|reference|] == reference;
    assert done == WorkSet(reference, ledger);
    assert count == |lookups|;
    assert reports == Reports(|lookups|, remaining);
    result := info;
  }
}
