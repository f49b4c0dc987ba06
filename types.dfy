/** The records that flow through the Pokemon ranking pipeline. */
module PipelineTypes {

  datatype Option<+T> = None | Some(value: T)

  /** A row of the warehouse snapshot: the Pokedex number and the other
      warehouse columns, by column name. */
  datatype RefRow = RefRow(numero: int, attributes: map<string, string>)

  /** A `{"name": ...}` object of the remote service. */
  datatype NamedResource = NamedResource(name: string)

  /** One entry of the `types` list of a /pokemon response. */
  datatype TypeSlot = TypeSlot(typeRef: NamedResource)

  /** One entry of the `abilities` list of a /pokemon response. */
  datatype AbilitySlot = AbilitySlot(ability: NamedResource)

  /** The parsed body of a /pokemon/{numero} response. */
  datatype PokemonBody = PokemonBody(id: int, types: seq<TypeSlot>, abilities: seq<AbilitySlot>)

  /** The parsed body of a /pokemon-species/{numero} response. */
  datatype SpeciesBody = SpeciesBody(generation: NamedResource)

  /** An HTTP response: its status code and its body, already decoded. */
  datatype Response<B> = Response(status: int, body: B)

  /** The two lookups issued for one Pokedex number. */
  datatype Lookup = Lookup(pokemon: Response<PokemonBody>, species: Response<SpeciesBody>)

  /** The remote service, as a function of the requested Pokedex number. */
  type Oracle = int -> Lookup

  /** A row of the enrichment table `ranking_pokemon_api`. */
  datatype ApiRow = ApiRow(numero: int, tipo: string, habilidades: string, geracao: string)

  /** The warning logged when a lookup pair fails. */
  datatype Warning = Warning(numero: int, pokemonStatus: int, speciesStatus: int)

  /** The progress line logged every 30th processed row. */
  datatype Report = Report(count: nat, remaining: int)
}
