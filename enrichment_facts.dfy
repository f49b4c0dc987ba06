/** What the enrichment loop guarantees, stated over the specification
    functions that `Enrichment.GetApiData` is proved to compute. */
module EnrichmentFacts {
  import opened PipelineTypes
  import opened Enrichment
  import Serialise

  /** The skip test is plain membership: an empty table skips nothing. */
  lemma SkipTestIsMembership(ledger: seq<int>, numero: int)
    ensures IsKnown(ledger, numero) <==> numero in ledger
    ensures ledger == [] ==> !IsKnown(ledger, numero)
  {
  }

  /** A row is processed exactly when its number is not in the table. */
  lemma {:induction false} WorkSetMembership(reference: seq<RefRow>, ledger: seq<int>)
    ensures forall r :: r in WorkSet(reference, ledger) <==> r in reference && r.numero !in ledger
  {
    if reference != [] {
      var n := |reference| - 1;
      WorkSetMembership(reference[..n], ledger);
      assert reference == reference[..n] + [reference[n]];
    }
  }

  lemma {:induction false} NumerosIndex(rows: seq<RefRow>)
    ensures forall k :: 0 <= k < |rows| ==> Numeros(rows)[k] == rows[k].numero
  {
    if rows != [] {
      NumerosIndex(rows[..|rows| - 1]);
    }
  }

  lemma NumerosMembership(rows: seq<RefRow>, r: RefRow)
    requires r in rows
    ensures r.numero in Numeros(rows)
  {
    NumerosIndex(rows);
    var k :| 0 <= k < |rows| && rows[k] == r;
    assert Numeros(rows)[k] == r.numero;
  }

  /** A number that is not in the table is looked up once for each row that
      carries it, since the table is not updated during the loop; a number
      in the table is never looked up. */
  lemma {:induction false} LookupCount(reference: seq<RefRow>, ledger: seq<int>, id: int)
    ensures multiset(Numeros(WorkSet(reference, ledger)))[id]
         == if id in ledger then 0 else multiset(Numeros(reference))[id]
  {
    if reference != [] {
      var n := |reference| - 1;
      var init, last := reference[..n], reference[n];
      LookupCount(init, ledger, id);
      assert Numeros(reference) == Numeros(init) + [last.numero];
      assert multiset(Numeros(reference)) == multiset(Numeros(init)) + multiset{last.numero};
      var ws0 := WorkSet(init, ledger);
      if IsKnown(ledger, last.numero) {
        assert WorkSet(reference, ledger) == ws0;
      } else {
        assert WorkSet(reference, ledger) == ws0 + [last];
        LookupStep(ws0, last);
        assert multiset(Numeros(ws0 + [last])) == multiset(Numeros(ws0)) + multiset{last.numero};
      }
    }
  }

  /** No lookup is issued for a number already in the table. */
  lemma KnownNeverLookedUp(reference: seq<RefRow>, ledger: seq<int>)
    ensures forall id :: id in ledger ==> id !in Numeros(WorkSet(reference, ledger))
  {
    forall id | id in ledger
      ensures id !in Numeros(WorkSet(reference, ledger))
    {
      LookupCount(reference, ledger, id);
    }
  }

  /** When the table cannot be read, every row is looked up. */
  lemma {:induction false} UnreadableLedgerLooksUpAll(reference: seq<RefRow>)
    ensures WorkSet(reference, Ledger(None)) == reference
  {
    if reference != [] {
      var n := |reference| - 1;
      UnreadableLedgerLooksUpAll(reference[..n]);
      assert reference == reference[..n] + [reference[n]];
    }
  }

  /** Nothing is looked up, kept or logged exactly when every row is
      already known, in particular for an empty warehouse snapshot. */
  lemma NothingToLookUp(reference: seq<RefRow>, ledger: seq<int>, oracle: Oracle)
    ensures WorkSet(reference, ledger) == [] <==> forall r :: r in reference ==> r.numero in ledger
    ensures WorkSet(reference, ledger) == [] ==>
      Numeros(WorkSet(reference, ledger)) == [] && Enrich(WorkSet(reference, ledger), oracle) == []
      && Warnings(WorkSet(reference, ledger), oracle) == []
  {
    WorkSetMembership(reference, ledger);
    var ws := WorkSet(reference, ledger);
    if ws != [] {
      assert ws[0] in ws;
    }
  }

  /** Each processed row either adds one entry or logs one warning. */
  lemma {:induction false} OutcomeTally(ws: seq<RefRow>, oracle: Oracle)
    ensures |Enrich(ws, oracle)| + |Warnings(ws, oracle)| == |ws|
  {
    if ws != [] {
      OutcomeTally(ws[..|ws| - 1], oracle);
    }
  }

  /** The entries are those built for the processed rows whose two lookups
      both answered 200, and nothing else. */
  lemma {:induction false} EnrichMembership(ws: seq<RefRow>, oracle: Oracle)
    ensures forall e :: e in Enrich(ws, oracle) <==>
      exists r :: r in ws && BothOk(oracle(r.numero)) && e == Entry(oracle(r.numero))
  {
    if ws != [] {
      var n := |ws| - 1;
      EnrichMembership(ws[..n], oracle);
      assert ws == ws[..n] + [ws[n]];
    }
  }

  /** The warnings name the processed rows whose lookups did not both
      answer 200, with the two status codes. */
  lemma {:induction false} WarningMembership(ws: seq<RefRow>, oracle: Oracle)
    ensures forall w :: w in Warnings(ws, oracle) <==>
      exists r :: r in ws && !BothOk(oracle(r.numero))
        && w == Warning(r.numero, oracle(r.numero).pokemon.status, oracle(r.numero).species.status)
  {
    if ws != [] {
      var n := |ws| - 1;
      WarningMembership(ws[..n], oracle);
      assert ws == ws[..n] + [ws[n]];
    }
  }

  lemma {:induction false} SuccessIndicesAscending(reference: seq<RefRow>, ledger: seq<int>, oracle: Oracle)
    ensures forall k :: 0 <= k < |SuccessIndices(reference, ledger, oracle)| ==>
      SuccessIndices(reference, ledger, oracle)[k] < |reference|
    ensures forall j, k :: 0 <= j < k < |SuccessIndices(reference, ledger, oracle)| ==>
      SuccessIndices(reference, ledger, oracle)[j] < SuccessIndices(reference, ledger, oracle)[k]
  {
    if reference != [] {
      var n := |reference| - 1;
      var r := reference[n];
      SuccessIndicesAscending(reference[..n], ledger, oracle);
      var idx0 := SuccessIndices(reference[..n], ledger, oracle);
      assert forall k :: 0 <= k < |idx0| ==> idx0[k] < n;
      if !IsKnown(ledger, r.numero) && BothOk(oracle(r.numero)) {
        var idx := idx0 + [n];
        assert SuccessIndices(reference, ledger, oracle) == idx;
        assert forall k :: 0 <= k < |idx| ==> idx[k] == if k < |idx0| then idx0[k] else n;
      } else {
        assert SuccessIndices(reference, ledger, oracle) == idx0;
      }
    }
  }

  /** Row `i` of the warehouse snapshot yields an entry. */
  ghost predicate YieldsEntry(reference: seq<RefRow>, ledger: seq<int>, oracle: Oracle, i: int)
  {
    0 <= i < |reference| && reference[i].numero !in ledger && BothOk(oracle(reference[i].numero))
  }

  /** The k-th of `out` is the entry of the row at position `idx[k]`. */
  ghost predicate Positioned(reference: seq<RefRow>, ledger: seq<int>, oracle: Oracle, out: seq<ApiRow>, idx: seq<nat>)
  {
    |out| == |idx|
    && forall k :: 0 <= k < |idx| ==>
         YieldsEntry(reference, ledger, oracle, idx[k]) && out[k] == Entry(oracle(reference[idx[k]].numero))
  }

  lemma PositionedGrow(reference: seq<RefRow>, ledger: seq<int>, oracle: Oracle, out: seq<ApiRow>, idx: seq<nat>)
    requires reference != []
    requires Positioned(reference[..|reference| - 1], ledger, oracle, out, idx)
    ensures Positioned(reference, ledger, oracle, out, idx)
  {
    var init := reference[..|reference| - 1];
    forall k | 0 <= k < |idx|
      ensures YieldsEntry(reference, ledger, oracle, idx[k]) && out[k] == Entry(oracle(reference[idx[k]].numero))
    {
      assert YieldsEntry(init, ledger, oracle, idx[k]);
      assert reference[idx[k]] == init[idx[k]];
    }
  }

  lemma PositionedAppend(reference: seq<RefRow>, ledger: seq<int>, oracle: Oracle, out: seq<ApiRow>, idx: seq<nat>, i: nat)
    requires Positioned(reference, ledger, oracle, out, idx)
    requires YieldsEntry(reference, ledger, oracle, i)
    ensures Positioned(reference, ledger, oracle, out + [Entry(oracle(reference[i].numero))], idx + [i])
  {
    var out1, idx1 := out + [Entry(oracle(reference[i].numero))], idx + [i];
    forall k | 0 <= k < |idx1|
      ensures YieldsEntry(reference, ledger, oracle, idx1[k]) && out1[k] == Entry(oracle(reference[idx1[k]].numero))
    {
      if k < |idx| {
        assert idx1[k] == idx[k] && out1[k] == out[k];
      }
    }
  }

  /** The k-th entry is built for the row at position `idx[k]`. */
  lemma {:induction false} OutputAtPositions(reference: seq<RefRow>, ledger: seq<int>, oracle: Oracle)
    ensures Positioned(reference, ledger, oracle, Enrich(WorkSet(reference, ledger), oracle), SuccessIndices(reference, ledger, oracle))
  {
    if reference != [] {
      var n := |reference| - 1;
      var init, last := reference[..n], reference[n];
      OutputAtPositions(init, ledger, oracle);
      var ws0 := WorkSet(init, ledger);
      var out0 := Enrich(ws0, oracle);
      var idx0 := SuccessIndices(init, ledger, oracle);
      PositionedGrow(reference, ledger, oracle, out0, idx0);
      if IsKnown(ledger, last.numero) {
        assert WorkSet(reference, ledger) == ws0;
        assert SuccessIndices(reference, ledger, oracle) == idx0;
      } else if BothOk(oracle(last.numero)) {
        assert WorkSet(reference, ledger) == ws0 + [last];
        assert SuccessIndices(reference, ledger, oracle) == idx0 + [n];
        SuccessStep(ws0, last, oracle);
        PositionedAppend(reference, ledger, oracle, out0, idx0, n);
      } else {
        assert WorkSet(reference, ledger) == ws0 + [last];
        assert SuccessIndices(reference, ledger, oracle) == idx0;
        FailureStep(ws0, last, oracle);
      }
    }
  }

  /** Every row whose number is not in the table and whose lookups both
      answered 200 has its position among the `idx`. */
  lemma {:induction false} PositionsComplete(reference: seq<RefRow>, ledger: seq<int>, oracle: Oracle)
    ensures var idx := SuccessIndices(reference, ledger, oracle);
      forall i :: 0 <= i < |reference| && reference[i].numero !in ledger && BothOk(oracle(reference[i].numero))
        ==> i in idx
  {
    if reference != [] {
      var n := |reference| - 1;
      var init, last := reference[..n], reference[n];
      PositionsComplete(init, ledger, oracle);
      var idx0 := SuccessIndices(init, ledger, oracle);
      assert forall i :: 0 <= i < n ==> reference[i] == init[i];
      if !IsKnown(ledger, last.numero) && BothOk(oracle(last.numero)) {
        assert SuccessIndices(reference, ledger, oracle) == idx0 + [n];
      } else {
        assert SuccessIndices(reference, ledger, oracle) == idx0;
      }
    }
  }

  /** Entries come out in warehouse order: the k-th entry is built for the
      row at position `idx[k]`, the positions ascend, and a row yields an
      entry if and only if its number is not in the table and both of its
      lookups answered 200. */
  lemma OutputFollowsReference(reference: seq<RefRow>, ledger: seq<int>, oracle: Oracle)
    ensures var out, idx := Enrich(WorkSet(reference, ledger), oracle), SuccessIndices(reference, ledger, oracle);
      && |out| == |idx|
      && (forall j, k :: 0 <= j < k < |idx| ==> idx[j] < idx[k])
      && (forall k :: 0 <= k < |idx| ==>
            idx[k] < |reference| && reference[idx[k]].numero !in ledger
            && BothOk(oracle(reference[idx[k]].numero)) && out[k] == Entry(oracle(reference[idx[k]].numero)))
      && (forall i :: 0 <= i < |reference| && reference[i].numero !in ledger && BothOk(oracle(reference[i].numero))
            ==> i in idx)
  {
    SuccessIndicesAscending(reference, ledger, oracle);
    OutputAtPositions(reference, ledger, oracle);
    PositionsComplete(reference, ledger, oracle);
  }

  /** A progress line is logged exactly when the number of processed rows
      reaches a positive multiple of 30, and every line carries the same
      estimate of the remaining work. */
  lemma ProgressSchedule(count: nat, remaining: int)
    ensures |Reports(count, remaining)| == count / ProgressEvery
    ensures forall p :: p in Reports(count, remaining) ==> p.remaining == remaining
    ensures forall k: nat :: Report(k, remaining) in Reports(count, remaining) <==> 1 <= k <= count && k % ProgressEvery == 0
  {
    var lines := Reports(count, remaining);
    forall k: nat | Report(k, remaining) in lines
      ensures 1 <= k <= count && k % ProgressEvery == 0
    {
      var j :| 0 <= j < |lines| && lines[j] == Report(k, remaining);
      assert k == ProgressEvery * (j + 1);
      assert j + 1 <= count / ProgressEvery;
    }
    forall k: nat | 1 <= k <= count && k % ProgressEvery == 0
      ensures Report(k, remaining) in lines
    {
      var j := k / ProgressEvery - 1;
      assert 0 <= j < count / ProgressEvery;
      assert lines[j] == Report(k, remaining);
    }
  }

  lemma {:induction false} TypeNamesIndex(slots: seq<TypeSlot>)
    ensures forall k :: 0 <= k < |slots| ==> TypeNames(slots)[k] == slots[k].typeRef.name
  {
    if slots != [] {
      TypeNamesIndex(slots[1..]);
    }
  }

  lemma {:induction false} AbilityNamesIndex(slots: seq<AbilitySlot>)
    ensures forall k :: 0 <= k < |slots| ==> AbilityNames(slots)[k] == slots[k].ability.name
  {
    if slots != [] {
      AbilityNamesIndex(slots[1..]);
    }
  }

  /** The stored `tipo` and `habilidades` read back as the type and ability
      names in the order the service returned them, when each list is
      non-empty and no name holds a comma; `numero` is the payload id and
      `geracao` the species generation name. */
  lemma EntryFields(l: Lookup)
    requires |l.pokemon.body.types| >= 1 && |l.pokemon.body.abilities| >= 1
    requires forall s :: s in l.pokemon.body.types ==> Serialise.PlainName(s.typeRef.name)
    requires forall s :: s in l.pokemon.body.abilities ==> Serialise.PlainName(s.ability.name)
    ensures Serialise.Split(Entry(l).tipo) == TypeNames(l.pokemon.body.types)
    ensures Serialise.Split(Entry(l).habilidades) == AbilityNames(l.pokemon.body.abilities)
    ensures Entry(l).numero == l.pokemon.body.id
    ensures Entry(l).geracao == l.species.body.generation.name
  {
    var types, abilities := l.pokemon.body.types, l.pokemon.body.abilities;
    TypeNamesIndex(types);
    AbilityNamesIndex(abilities);
    forall name | name in TypeNames(types) ensures Serialise.PlainName(name) {
      var k :| 0 <= k < |types| && TypeNames(types)[k] == name;
      assert types[k] in types;
    }
    forall name | name in AbilityNames(abilities) ensures Serialise.PlainName(name) {
      var k :| 0 <= k < |abilities| && AbilityNames(abilities)[k] == name;
      assert abilities[k] in abilities;
    }
    Serialise.SplitJoin(TypeNames(types));
    Serialise.SplitJoin(AbilityNames(abilities));
  }

  /** The service answers with the number it was asked for. The loop does
      not check this: it stores the payload id as `numero`. */
  ghost predicate IdsFaithful(oracle: Oracle)
  {
    forall id :: BothOk(oracle(id)) ==> oracle(id).pokemon.body.id == id
  }

  /** With a faithful service, every entry carries the number of a row
      that was processed. */
  lemma EntryIdsAreRequested(ws: seq<RefRow>, oracle: Oracle)
    requires IdsFaithful(oracle)
    ensures forall e :: e in Enrich(ws, oracle) ==> e.numero in Numeros(ws)
  {
    EnrichMembership(ws, oracle);
    forall e | e in Enrich(ws, oracle)
      ensures e.numero in Numeros(ws)
    {
      var r :| r in ws && BothOk(oracle(r.numero)) && e == Entry(oracle(r.numero));
      NumerosMembership(ws, r);
    }
  }

  /** A run keeps nothing exactly when no processed row has two successful
      lookups. */
  lemma NothingKept(ws: seq<RefRow>, oracle: Oracle)
    ensures Enrich(ws, oracle) == [] <==> forall r :: r in ws ==> !BothOk(oracle(r.numero))
  {
    EnrichMembership(ws, oracle);
    var out := Enrich(ws, oracle);
    if out != [] {
      assert out[0] in out;
    }
    forall r | r in ws && BothOk(oracle(r.numero))
      ensures Entry(oracle(r.numero)) in out
    {
    }
  }
}
