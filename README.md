# Pokemon ranking pipeline: incremental enrichment, in Dafny

This project models the core of a small data pipeline for a Pokemon
ranking. The pipeline reads a warehouse snapshot of Pokemon. Each row
carries a Pokedex number, `numero`. The pipeline then enriches every row
whose number is not yet in the enrichment table `ranking_pokemon_api`. To
do that it looks the number up twice in a remote service:

- `/pokemon/{numero}`, for the types and abilities;
- `/pokemon-species/{numero}`, for the generation.

A row is kept only when both lookups answer 200. The row's types and
abilities are stored as ", "-joined name lists. After the loop, an empty
result skips the save and the merge. Otherwise the new entries are
appended to the enrichment table and inner-joined with the snapshot on
`numero`.

Modules:

- `PipelineTypes` (`types.dfy`): the rows, the decoded responses, the
  enrichment entries, the logged warnings and progress lines.
- `Serialise` (`serialise.dfy`): the ", " join of a name list, and a split
  that reads it back.
- `Enrichment` (`enrichment.dfy`): `get_api_data` as the method
  `GetApiData`, a `for` loop with invariants. It is proved equal to
  specification functions of the warehouse rows, the enrichment table and
  the service.
- `EnrichmentFacts` (`enrichment_facts.dfy`): what those functions
  guarantee. This covers skipping, lookups per number, success and failure,
  output order, the progress schedule and field serialisation.
- `Merge` (`merge.dfy`): `merge_results`, the inner join on `numero`.
- `Pipeline` (`pipeline.dfy`): the empty-result branch of the main block,
  a whole run, and what a second run finds.

The remote service is a parameter of type `int -> Lookup`. It takes the
requested number to the two responses, with status codes and bodies
already decoded. Reading the enrichment table is the parameter
`Option<seq<int>>`: the `numero` column, or `None` when the read fails.

`GetApiData` also returns ghost traces of its observable effects:

- the numbers looked up (one entry per `/pokemon` and `/pokemon-species`
  pair);
- the warnings logged for failed pairs;
- the progress lines;
- the number of pauses.

The source keeps no failure counter. The number of failures is read off
the warning trace, `|warnings|`.

## Model

| member | source | states |
|---|---|---|
| Enrichment.GetApiData | pokemon_pipeline.py:40-99 | The returned entries, lookups, warnings and progress lines equal the specification functions applied to the rows that are not skipped. There is one pause per warehouse row, skipped or not, because the sleep comes before the skip test. There are at most as many entries as lookups, and at most as many lookups as rows. |
| Enrichment.Ledger | pokemon_pipeline.py:54-58 | The table read: the `numero` column, or an empty table when the read fails. It has no contract of its own; UnreadableLedgerLooksUpAll states what a failed read leads to. |
| Enrichment.IsKnown | pokemon_pipeline.py:65 | The skip test. It has no contract of its own; SkipTestIsMembership shows it is plain membership. |
| Enrichment.BothOk | pokemon_pipeline.py:78 | The success test: both status codes are 200. It has no contract of its own; EnrichMembership, WarningMembership and OutputFollowsReference state what it decides. |
| Enrichment.Entry | pokemon_pipeline.py:81-86 | The entry built from two successful responses. It has no contract of its own; EntryFields states its fields. |
| Enrichment.Warnings | pokemon_pipeline.py:88-91 | The warnings logged for failed pairs. It has no contract of its own; WarningMembership and OutcomeTally state its contents and size. |
| Enrichment.Reports | pokemon_pipeline.py:69-73 | The progress lines after a given count. It has no contract of its own; ProgressSchedule states when lines appear and what they carry. |
| Enrichment.WorkSet | pokemon_pipeline.py:61-67 | The rows that are not skipped are never more than the warehouse rows. |
| Enrichment.Enrich | pokemon_pipeline.py:78-86 | A run never keeps more entries than the rows it processed. |
| Enrichment.SuccessIndices | pokemon_pipeline.py:61-86 | There are no more positions of entry-yielding rows than warehouse rows. |
| Enrichment.Numeros | pokemon_pipeline.py:75-76 | There is one looked-up number per processed row. |
| Enrichment.TypeNames | pokemon_pipeline.py:83 | There is one type name per type slot. |
| Enrichment.AbilityNames | pokemon_pipeline.py:84 | There is one ability name per ability slot. |
| Enrichment.SkipStep | pokemon_pipeline.py:65-67 | A row whose number is in the table adds nothing to the processed rows. |
| Enrichment.VisitStep | pokemon_pipeline.py:65-70 | A row whose number is not in the table is processed next. |
| Enrichment.ReportDue | pokemon_pipeline.py:70-73 | When the count reaches a multiple of 30, one progress line with that count is added. |
| Enrichment.ReportNotDue | pokemon_pipeline.py:70-73 | Any other count adds no progress line. |
| Enrichment.SuccessStep | pokemon_pipeline.py:78-86 | Two 200 answers add exactly one entry and no warning. |
| Enrichment.FailureStep | pokemon_pipeline.py:88-91 | Any other status pair adds no entry and one warning carrying both codes. |
| Enrichment.LookupStep | pokemon_pipeline.py:75-76 | Each processed row issues one lookup, for its own number. |
| EnrichmentFacts.SkipTestIsMembership | pokemon_pipeline.py:65 | The skip test is membership in the table, and an empty table skips nothing. |
| EnrichmentFacts.WorkSetMembership | pokemon_pipeline.py:61-67 | A warehouse row is processed if and only if its number is not in the table. |
| EnrichmentFacts.NumerosIndex | pokemon_pipeline.py:75-76 | The k-th lookup is for the k-th processed row. |
| EnrichmentFacts.NumerosMembership | pokemon_pipeline.py:75-76 | Every processed row's number is looked up. |
| EnrichmentFacts.LookupCount | pokemon_pipeline.py:55-76 | The table is read once and never updated in the loop. So a number in the table is looked up 0 times, and any other number once per warehouse row that carries it, duplicates included. |
| EnrichmentFacts.KnownNeverLookedUp | pokemon_pipeline.py:65-67 | No lookup is issued for a number already in the table. |
| EnrichmentFacts.UnreadableLedgerLooksUpAll | pokemon_pipeline.py:54-58 | When the table cannot be read, every warehouse row is processed. |
| EnrichmentFacts.NothingToLookUp | pokemon_pipeline.py:61-67 | Nothing is processed exactly when every row is known, which includes an empty snapshot. Then there are no lookups, no entries and no warnings. |
| EnrichmentFacts.OutcomeTally | pokemon_pipeline.py:78-91 | Every processed row gives exactly one entry or one warning. |
| EnrichmentFacts.EnrichMembership | pokemon_pipeline.py:78-86 | The entries are exactly those built for processed rows whose two lookups both answered 200. |
| EnrichmentFacts.WarningMembership | pokemon_pipeline.py:88-91 | The warnings are exactly those for processed rows with any other status pair, with both codes. |
| EnrichmentFacts.SuccessIndicesAscending | pokemon_pipeline.py:61 | The positions of entry-yielding rows lie within the snapshot and strictly ascend. |
| EnrichmentFacts.PositionedGrow | pokemon_pipeline.py:61 | Adding a warehouse row at the end keeps every earlier entry tied to its row. |
| EnrichmentFacts.PositionedAppend | pokemon_pipeline.py:78-86 | Appending the entry of a row that yields one keeps entries tied to their rows. |
| EnrichmentFacts.OutputAtPositions | pokemon_pipeline.py:61-86 | The k-th entry is the one built from the lookups of the row at the k-th position. |
| EnrichmentFacts.PositionsComplete | pokemon_pipeline.py:61-86 | Every row that is not in the table and has two 200 answers is among those positions. |
| EnrichmentFacts.OutputFollowsReference | pokemon_pipeline.py:61-86 | Entries come out in warehouse order, and a row yields an entry if and only if it is not in the table and both lookups answered 200. |
| EnrichmentFacts.ProgressSchedule | pokemon_pipeline.py:48-73 | A progress line is logged exactly at each positive multiple of 30 processed rows. There are `count / 30` lines, and all carry the same estimate of the remaining rows. |
| EnrichmentFacts.TypeNamesIndex | pokemon_pipeline.py:83 | The type names are those of the slots, in the order the service returned them. |
| EnrichmentFacts.AbilityNamesIndex | pokemon_pipeline.py:84 | The ability names are those of the slots, in the order the service returned them. |
| EnrichmentFacts.EntryFields | pokemon_pipeline.py:82-85 | Splitting the stored `tipo` and `habilidades` gives back the names in service order. `numero` is the payload id, and `geracao` is the species generation name. |
| EnrichmentFacts.EntryIdsAreRequested | pokemon_pipeline.py:82 | When the service answers with the number it was asked for, every entry's number is one that was looked up. |
| EnrichmentFacts.NothingKept | pokemon_pipeline.py:78-91 | A run keeps nothing exactly when no processed row got two 200 answers. |
| Serialise.Join | pokemon_pipeline.py:83-84 | The ", " join of a name list. It has no contract of its own; SplitJoin states that it can be read back. |
| Serialise.CommaIndex | pokemon_pipeline.py:83-84 | Returns the first comma of a stored list, or its length when there is none. |
| Serialise.Split | pokemon_pipeline.py:83-84 | Reading a stored list back always gives at least one name. |
| Serialise.NoCommaIndex | pokemon_pipeline.py:83-84 | A name without a comma is read back whole. |
| Serialise.SplitJoin | pokemon_pipeline.py:83-84 | Splitting a ", "-joined list of comma-free names gives back the names, in order. |
| Merge.Matches | pokemon_pipeline.py:111 | The merged rows of one warehouse row. It has no contract of its own; MatchesMembership and MatchesCount state its contents and multiplicity. |
| Merge.MergeResults | pokemon_pipeline.py:111 | The inner join on `numero`. It has no contract of its own; membership is stated in MergeMembership, multiplicity in MergeCount and emptiness in MergeEmpty. |
| Merge.MatchesMembership | pokemon_pipeline.py:111 | The merged rows for one warehouse row are exactly its pairings with the entries of the same number. |
| Merge.MergeMembership | pokemon_pipeline.py:111 | The join holds exactly the pairs of a warehouse row and an entry that share `numero`. |
| Merge.MatchesCount | pokemon_pipeline.py:111 | A warehouse row is paired with each same-numbered entry as many times as the entry occurs. |
| Merge.MergeCount | pokemon_pipeline.py:111 | The join holds each matching pair once per pair of positions: `a` copies of a warehouse row and `b` copies of an entry with its number give `a * b` merged rows, and a non-matching pair gives none. |
| Merge.MergeEmpty | pokemon_pipeline.py:111 | The join is empty exactly when no warehouse row shares its number with an entry. |
| Pipeline.RunOutcome.Added | pokemon_pipeline.py:168 | The count announced at the end of a run. It has no contract of its own; FinishRun states that it is the number of new entries. |
| Pipeline.FinishRun | pokemon_pipeline.py:158-168 | The merge is skipped if and only if the run found nothing. Otherwise the new entries are appended, and the merged table is their join with the snapshot: exactly the matching pairs, each once per pair of positions (a warehouse row occurring `a` times and an entry occurring `b` times give `a * b` rows). The announced count is the number of new entries. |
| Pipeline.NothingNewIsNotNothingMatched | pokemon_pipeline.py:161-166 | An empty run skips the merge. A non-empty run whose entries match no row still appends them and stores an empty merged table. |
| Pipeline.AppendedLedger | pokemon_pipeline.py:164 | After the append, the table is the old numbers followed by the numbers of the new entries, in order, and nothing else. |
| Pipeline.RunPipeline | pokemon_pipeline.py:150-166 | A run finishes on the entries of `GetApiData`. It skips the merge exactly when no unknown row got two 200 answers. |
| Pipeline.RerunFindsNothing | pokemon_pipeline.py:61-86 | When the service answers with the number it was asked for, and gives the same answers as in the first run, a second run after the append finds nothing new. |
| Pipeline.RerunRepeatsWhenIdsDiffer | pokemon_pipeline.py:82 | Without that condition a second run can repeat work. For example, a payload id of 2 for number 1 makes number 1 be looked up and appended again. |

## Left out

- Reading the warehouse snapshot (`get_big_query_data`) is not modelled. The rows are an input sequence.
- Postgres reads and writes (`pd.read_sql`, `save_to_postgres`) are not modelled. The table read is an `Option` input. The append of new entries and the merged-table write are the fields of `Pipeline.RunOutcome`. The write of the warehouse snapshot to `ranking_pokemon_bq` is left out.
- HTTP requests and JSON decoding are not modelled. The service is a function from the requested number to two responses whose bodies are already decoded. A body is used only when both codes are 200.
- The service is a fixed function of the requested number. It gives the same answer every time a number is asked, within a run and across runs. The source sends fresh requests each time, so a number that failed can succeed on a duplicate row or a later run. The outcomes of duplicate rows and `Pipeline.RerunFindsNothing` depend on this assumption.
- The 10 ms pause is only counted (`pauses`), not timed.
- Log text and the Discord notifications are not modelled. Progress lines and warnings are ghost traces, and the final announcement is `RunOutcome.Added`.
- The column suffixes of the pandas merge and the other columns of the merged frame are not modelled. A merged row holds the shared number and the two matched rows.
- The row order of the merged frame is this model's own choice: warehouse-row-major, then entry order. The order pandas produces depends on its version, and nothing fixes that version.
- The exception wrappers that log and re-raise are not modelled, and neither are exceptions inside the loop. A failed table read is modelled, since the source handles it.
- `config.py` is not modelled. It only assembles settings, and its rate-limit setting is unused: the pause is hard-coded.
- Serialise.SplitJoin: the round trip is stated only for non-empty lists of names without commas. An empty list is stored as "" and reads back as one empty name.
- EnrichmentFacts.EntryFields: the round trip needs non-empty type and ability lists whose names have no commas. The service guarantees this, but the source does not check it.
- EnrichmentFacts.EntryIdsAreRequested: holds only when the service returns the requested number. The source stores the payload `id` without checking it.
